/** What is left of a modified row's two texts once its changed spans are trimmed to the part between the
    equal ends.  Trimming may give back text on one side only: it leaves the same text on both sides exactly
    when the two windows keep the same text. */
module TrimmedSpans {
  import opened Basics
  import opened Text
  import opened CommonSubsequence
  import opened ChangedUnits
  import opened Intraline

  // ----- Kept bytes -----

  predicate Covered(spans: seq<Span>, k: nat) {
    exists x | 0 <= x < |spans| :: spans[x].start <= k < spans[x].end
  }

  /** The bytes of `[lo, hi)` that no span covers. */
  function Inside(text: Line, spans: seq<Span>, lo: nat, hi: nat): Line
    requires hi <= |text|
    decreases hi
  {
    if hi <= lo then ""
    else Inside(text, spans, lo, hi - 1) + if Covered(spans, hi - 1) then "" else [text[hi - 1]]
  }

  lemma {:induction false} InsideSplits(text: Line, spans: seq<Span>, lo: nat, mid: nat, hi: nat)
    requires lo <= mid <= hi <= |text|
    ensures Inside(text, spans, lo, hi) == Inside(text, spans, lo, mid) + Inside(text, spans, mid, hi)
    decreases hi
  {
    if mid < hi {
      InsideSplits(text, spans, lo, mid, hi - 1);
    }
  }

  lemma {:induction false} InsideAgrees(text: Line, a: seq<Span>, b: seq<Span>, lo: nat, hi: nat)
    requires hi <= |text| && forall k | lo <= k < hi :: Covered(a, k) <==> Covered(b, k)
    ensures Inside(text, a, lo, hi) == Inside(text, b, lo, hi)
    decreases hi
  {
    if lo < hi {
      InsideAgrees(text, a, b, lo, hi - 1);
    }
  }

  lemma {:induction false} InsideUncovered(text: Line, spans: seq<Span>, lo: nat, hi: nat)
    requires lo <= hi <= |text| && forall k | lo <= k < hi :: !Covered(spans, k)
    ensures Inside(text, spans, lo, hi) == text[lo..hi]
    decreases hi
  {
    if lo < hi {
      InsideUncovered(text, spans, lo, hi - 1);
      assert text[lo..hi] == text[lo..hi - 1] + [text[hi - 1]];
    }
  }

  lemma {:induction false} InsideCovered(text: Line, spans: seq<Span>, lo: nat, hi: nat)
    requires lo <= hi <= |text| && forall k | lo <= k < hi :: Covered(spans, k)
    ensures Inside(text, spans, lo, hi) == ""
    decreases hi
  {
    if lo < hi {
      InsideCovered(text, spans, lo, hi - 1);
    }
  }

  lemma {:induction false} OrderedStartsAfter(spans: seq<Span>, lo: nat, hi: nat, x: nat)
    requires Ordered(spans, lo, hi) && x < |spans|
    ensures lo <= spans[x].start < spans[x].end <= hi
    decreases x
  {
    if x > 0 {
      OrderedStartsAfter(spans[1..], spans[0].end, hi, x - 1);
    }
  }

  /** What the first span covers, and what is left to the others. */
  lemma {:induction false} CoveredByFirst(spans: seq<Span>, lo: nat, hi: nat, k: nat)
    requires Ordered(spans, lo, hi) && spans != []
    ensures k < spans[0].start ==> !Covered(spans, k)
    ensures spans[0].start <= k < spans[0].end ==> Covered(spans, k)
    ensures spans[0].end <= k ==> (Covered(spans, k) <==> Covered(spans[1..], k))
  {
    if k < spans[0].start && Covered(spans, k) {
      var x :| 0 <= x < |spans| && spans[x].start <= k < spans[x].end;
      if x > 0 {
        OrderedStartsAfter(spans[1..], spans[0].end, hi, x - 1);
      }
    }
    if spans[0].end <= k && Covered(spans, k) {
      var x :| 0 <= x < |spans| && spans[x].start <= k < spans[x].end;
      assert spans[1..][x - 1] == spans[x];
    }
    if Covered(spans[1..], k) {
      var x :| 0 <= x < |spans| - 1 && spans[1..][x].start <= k < spans[1..][x].end;
      assert spans[x + 1] == spans[1..][x];
    }
  }

  /** Deleting spans keeps the bytes they do not cover. */
  lemma {:induction false} WithoutIsInside(text: Line, spans: seq<Span>, from: nat)
    requires from <= |text| && Ordered(spans, from, |text|)
    ensures Without(text, spans, from) == Inside(text, spans, from, |text|)
    decreases |spans|
  {
    if spans == [] {
      InsideUncovered(text, spans, from, |text|);
    } else {
      var first := spans[0];
      forall k: nat ensures
        && (k < first.start ==> !Covered(spans, k))
        && (first.start <= k < first.end ==> Covered(spans, k))
        && (first.end <= k ==> (Covered(spans, k) <==> Covered(spans[1..], k))) {
        CoveredByFirst(spans, from, |text|, k);
      }
      WithoutIsInside(text, spans[1..], first.end);
      assert Without(text, spans, from) == text[from..first.start] + Without(text, spans[1..], first.end);
      hide Covered, Inside, Without, Ordered;
      InsideUncovered(text, spans, from, first.start);
      InsideCovered(text, spans, first.start, first.end);
      InsideAgrees(text, spans, spans[1..], first.end, |text|);
      InsideSplits(text, spans, from, first.start, |text|);
      InsideSplits(text, spans, first.start, first.end, |text|);
    }
  }

  // ----- Clipping -----

  predicate InWindow(k: nat, lo: nat, hi: nat) {
    lo <= k < hi
  }

  lemma {:induction false} CoveredByLast(spans: seq<Span>, last: Span, k: nat)
    ensures Covered(spans + [last], k) <==> Covered(spans, k) || last.start <= k < last.end
  {
    var all := spans + [last];
    assert all[|spans|] == last;
    if Covered(spans, k) {
      var x :| 0 <= x < |spans| && spans[x].start <= k < spans[x].end;
      assert all[x] == spans[x];
    }
    if Covered(all, k) {
      var x :| 0 <= x < |all| && all[x].start <= k < all[x].end;
      assert x < |spans| ==> spans[x] == all[x];
    }
  }

  /** A clipped span covers what it covered inside the window, and nothing outside. */
  lemma {:induction false} ClipCovers(spans: seq<Span>, lo: nat, hi: nat, k: nat)
    ensures Covered(Clip(spans, lo, hi), k) <==> Covered(spans, k) && InWindow(k, lo, hi)
  {
    if spans != [] {
      var n := |spans| - 1;
      ClipCovers(spans[..n], lo, hi, k);
      CoveredByLast(spans[..n], spans[n], k);
      assert spans == spans[..n] + [spans[n]];
      CoveredByLast(Clip(spans[..n], lo, hi), Span(Max(spans[n].start, lo), Min(spans[n].end, hi)), k);
    }
  }

  /** Deleting clipped spans leaves both ends whole and the window without its covered bytes. */
  lemma {:induction false} ClippedRemainder(text: Line, spans: seq<Span>, lo: nat, hi: nat)
    requires Ordered(spans, 0, |text|) && lo <= hi <= |text|
    ensures Without(text, Clip(spans, lo, hi), 0) == text[..lo] + Inside(text, spans, lo, hi) + text[hi..]
  {
    var clipped := Clip(spans, lo, hi);
    ClipKeepsOrder(spans, 0, |text|, lo, hi);
    OrderedWeaken(clipped, lo, Max(lo, Min(|text|, hi)), 0, |text|);
    WithoutIsInside(text, clipped, 0);
    forall k: nat ensures Covered(clipped, k) <==> Covered(spans, k) && InWindow(k, lo, hi) {
      ClipCovers(spans, lo, hi, k);
    }
    hide Covered, Inside, Clip;
    InsideSplits(text, clipped, 0, lo, |text|);
    InsideSplits(text, clipped, lo, hi, |text|);
    InsideUncovered(text, clipped, 0, lo);
    InsideAgrees(text, clipped, spans, lo, hi);
    InsideUncovered(text, clipped, hi, |text|);
    Associate(text[0..lo], Inside(text, spans, lo, hi), text[hi..|text|]);
    assert text[0..lo] == text[..lo] && text[hi..|text|] == text[hi..];
  }

  // ----- The equal ends -----

  lemma {:induction false} SamePrefixText(l: Cut, r: Cut, p: nat)
    requires WellCut(l) && WellCut(r) && p <= |l.units| && p <= |r.units| && l.units[..p] == r.units[..p]
    ensures l.cuts[p] <= |l.text| && r.cuts[p] <= |r.text| && l.text[..l.cuts[p]] == r.text[..r.cuts[p]]
  {
    if p > 0 {
      assert l.units[..p - 1] == l.units[..p][..p - 1] && r.units[..p - 1] == r.units[..p][..p - 1];
      SamePrefixText(l, r, p - 1);
      assert Piece(l.text, l.cuts, l.units, p - 1) && Piece(r.text, r.cuts, r.units, p - 1);
      assert l.units[p - 1] == l.units[..p][p - 1] == r.units[..p][p - 1];
      assert l.text[..l.cuts[p]] == l.text[..l.cuts[p - 1]] + l.units[p - 1].text;
      assert r.text[..r.cuts[p]] == r.text[..r.cuts[p - 1]] + r.units[p - 1].text;
    }
  }

  lemma {:induction false} SameSuffixText(l: Cut, r: Cut, s: nat)
    requires WellCut(l) && WellCut(r) && s <= |l.units| && s <= |r.units|
    requires l.units[|l.units| - s..] == r.units[|r.units| - s..]
    ensures l.cuts[|l.units| - s] <= |l.text| && r.cuts[|r.units| - s] <= |r.text|
    ensures l.text[l.cuts[|l.units| - s]..] == r.text[r.cuts[|r.units| - s]..]
    decreases s
  {
    if s > 0 {
      var i, j := |l.units| - s, |r.units| - s;
      assert l.units[i + 1..] == l.units[i..][1..] && r.units[j + 1..] == r.units[j..][1..];
      SameSuffixText(l, r, s - 1);
      assert Piece(l.text, l.cuts, l.units, i) && Piece(r.text, r.cuts, r.units, j);
      assert l.units[i] == l.units[i..][0] == r.units[j..][0] == r.units[j];
      assert l.text[l.cuts[i]..] == l.units[i].text + l.text[l.cuts[i + 1]..];
      assert r.text[r.cuts[j]..] == r.units[j].text + r.text[r.cuts[j + 1]..];
    }
  }

  lemma {:induction false} WindowsOfCuts(l: Cut, r: Cut, p: nat, s: nat)
    requires WellCut(l) && WellCut(r) && p + s <= |l.units| && p + s <= |r.units|
    requires l.units[..p] == r.units[..p] && l.units[|l.units| - s..] == r.units[|r.units| - s..]
    ensures Window(l, p, s).0 <= Window(l, p, s).1 <= |l.text|
    ensures Window(r, p, s).0 <= Window(r, p, s).1 <= |r.text|
    ensures l.text[..Window(l, p, s).0] == r.text[..Window(r, p, s).0]
    ensures l.text[Window(l, p, s).1..] == r.text[Window(r, p, s).1..]
  {
    SamePrefixText(l, r, p);
    SameSuffixText(l, r, s);
    CutsAscend(l, p, |l.units| - s);
    CutsAscend(r, p, |r.units| - s);
  }

  /** Between the windows and the ends of the lines the texts are equal. */
  lemma {:induction false} WindowsBetweenEqualTexts(left: Line, right: Line)
    ensures var (l, r) := Windows(left, right);
            && l.0 <= l.1 <= |left| && r.0 <= r.1 <= |right|
            && left[..l.0] == right[..r.0] && left[l.1..] == right[r.1..]
  {
    var l, r := ByCodepoint(left), ByCodepoint(right);
    CodepointsCut(left);
    CodepointsCut(right);
    hide WellCut, Window, Prefix, Suffix;
    EndsAreEqual(l.units, r.units);
    WindowsOfCuts(l, r, Prefix(l.units, r.units), Suffix(l.units, r.units));
  }

  lemma {:induction false} SameEndsCancel<T>(front: seq<T>, x: seq<T>, y: seq<T>, back: seq<T>)
    ensures front + x + back == front + y + back <==> x == y
  {
    if front + x + back == front + y + back {
      assert |x| == |y|;
      assert x == (front + x + back)[|front|..|front| + |x|];
      assert y == (front + y + back)[|front|..|front| + |y|];
    }
  }

  // ----- The results -----

  /** After trimming, deleting the spans leaves the same text on both sides exactly when the spans, before
      they were trimmed, left the same text inside the two windows. */
  lemma {:induction false} TrimmedLeavesTheSameIff(left: Line, right: Line)
    ensures var marks := Untrimmed(left, right);
            var (l, r) := Windows(left, right);
            && l.1 <= |left| && r.1 <= |right|
            && (SameRemainder(left, right, Trimmed(left, right, marks))
                <==> Inside(left, marks.left, l.0, l.1) == Inside(right, marks.right, r.0, r.1))
  {
    var marks := Untrimmed(left, right);
    var (l, r) := Windows(left, right);
    WindowsBetweenEqualTexts(left, right);
    UntrimmedOrdered(left, right);
    hide Untrimmed, Windows, Inside, Clip;
    ClippedRemainder(left, marks.left, l.0, l.1);
    ClippedRemainder(right, marks.right, r.0, r.1);
    SameEndsCancel(left[..l.0], Inside(left, marks.left, l.0, l.1), Inside(right, marks.right, r.0, r.1), left[l.1..]);
  }

  /** No changed span sticks out of its window. */
  ghost predicate InsideWindows(left: Line, right: Line, marks: Marks) {
    var (l, r) := Windows(left, right);
    Ordered(marks.left, l.0, l.1) && Ordered(marks.right, r.0, r.1)
  }

  lemma {:induction false} ClipNothing(spans: seq<Span>, lo: nat, mid: nat, hi: nat)
    requires Ordered(spans, lo, mid) && mid <= hi
    ensures Clip(spans, lo, hi) == spans
  {
    if spans != [] {
      OrderedSplit(spans, lo, mid);
      ClipNothing(spans[..|spans| - 1], lo, spans[|spans| - 1].start, hi);
    }
  }

  /** Where no span sticks out, trimming changes nothing and the same text is left on both sides. */
  lemma {:induction false} NothingSticksOut(left: Line, right: Line)
    requires InsideWindows(left, right, Untrimmed(left, right))
    ensures Trimmed(left, right, Untrimmed(left, right)) == Untrimmed(left, right)
    ensures SameRemainder(left, right, Trimmed(left, right, Untrimmed(left, right)))
  {
    var marks := Untrimmed(left, right);
    var (l, r) := Windows(left, right);
    ClipNothing(marks.left, l.0, l.1, l.1);
    ClipNothing(marks.right, r.0, r.1, r.1);
    UntrimmedLeavesTheSame(left, right);
  }

  /** Spans of flags that are all within units `[p, q)` lie between those cuts. */
  lemma {:induction false} SpansBetween(c: Cut, changed: seq<bool>, k: nat, p: nat, q: nat)
    requires WellCut(c) && |changed| == |c.units| && k <= |changed| && p <= q <= |changed|
    requires forall i | 0 <= i < |changed| && changed[i] :: p <= i < q
    ensures Ordered(SpansFrom(c.cuts, changed, k), c.cuts[Min(Max(p, k), q)], c.cuts[q])
    decreases |changed| - k
  {
    if k < |changed| {
      if !changed[k] {
        SpansBetween(c, changed, k + 1, p, q);
        var spans, a, b := SpansFrom(c.cuts, changed, k), Min(Max(p, k), q), Min(Max(p, k + 1), q);
        CutsAscend(c, a, b);
        OrderedWeaken(spans, c.cuts[b], c.cuts[q], c.cuts[a], c.cuts[q]);
      } else {
        var end := FlagRunEnd(changed, k);
        assert changed[end - 1];
        SpansBetween(c, changed, end, p, q);
        CutsAscend(c, k, end);
        CutsAscend(c, end, q);
      }
    }
  }

  lemma {:induction false} FramedFlags(prefix: nat, middle: seq<bool>, suffix: nat)
    ensures var all := Framed(prefix, middle, suffix);
            forall i | 0 <= i < |all| && all[i] :: prefix <= i < prefix + |middle|
  {
  }

  /** The codepoint path, which finds the same ends, never sticks out. */
  lemma {:induction false} CodepointPathStaysInside(left: Line, right: Line)
    ensures InsideWindows(left, right, CodepointMarks(left, right))
  {
    CodepointsCut(left);
    CodepointsCut(right);
    hide ByCodepoint, CodepointPairs, WellCut;
    var l, r := ByCodepoint(left), ByCodepoint(right);
    PairsStayInside(l, r, CodepointPairs(l.units, r.units));
  }

  lemma {:induction false} PairsStayInside(l: Cut, r: Cut, pairs: seq<Pair>)
    requires WellCut(l) && WellCut(r)
    ensures var p, s := Prefix(l.units, r.units), Suffix(l.units, r.units);
            && Ordered(MarksOf(l, r, pairs).left, Window(l, p, s).0, Window(l, p, s).1)
            && Ordered(MarksOf(l, r, pairs).right, Window(r, p, s).0, Window(r, p, s).1)
  {
    var p, s := Prefix(l.units, r.units), Suffix(l.units, r.units);
    hide LeftFlags, RightFlags, Prefix, Suffix, SpansFrom, Ordered, Framed;
    FramedInside(l, p, LeftFlags(pairs, 0, |l.units| - p - s), s);
    FramedInside(r, p, RightFlags(pairs, 0, |r.units| - p - s), s);
  }

  lemma {:induction false} FramedInside(c: Cut, p: nat, middle: seq<bool>, s: nat)
    requires WellCut(c) && p + |middle| + s == |c.units|
    ensures Ordered(SpansFrom(c.cuts, Framed(p, middle, s), 0), Window(c, p, s).0, Window(c, p, s).1)
  {
    FramedFlags(p, middle, s);
    hide Framed;
    SpansBetween(c, Framed(p, middle, s), 0, p, p + |middle|);
  }

  /** So wherever the token path does not apply, the same text is left after trimming. */
  lemma {:induction false} CodepointRowsLeaveTheSame(left: Line, right: Line)
    requires !TokenPathApplies(left, right)
    ensures SameRemainder(left, right, Trimmed(left, right, Untrimmed(left, right)))
  {
    CodepointPathStaysInside(left, right);
    NothingSticksOut(left, right);
  }

  // ----- A row on which trimming gives text back -----

  predicate Ascii(text: Line) {
    forall k | 0 <= k < |text| :: text[k] as int <= 0x7F
  }

  lemma {:induction false} AsciiLength(text: Line, offset: nat)
    requires Ascii(text) && offset < |text|
    ensures Utf8SequenceLength(text, offset) == 1
  {
    assert text[offset] as int <= 0x7F;
  }

  lemma {:induction false} OneMoreOffset(offset: nat, rest: seq<nat>)
    requires forall k | 0 <= k < |rest| :: rest[k] == offset + 1 + k
    ensures forall k | 0 <= k <= |rest| :: ([offset] + rest)[k] == offset + k
  {
  }

  /** The codepoints of such a line are its bytes. */
  lemma {:induction false} AsciiOffsets(text: Line, offset: nat)
    requires Ascii(text) && offset <= |text|
    ensures var cuts := Utf8Offsets(text, offset);
            |cuts| == |text| - offset + 1 && forall k | 0 <= k < |cuts| :: cuts[k] == offset + k
    decreases |text| - offset
  {
    hide Ascii, Cuts, Utf8SequenceLength;
    if offset < |text| {
      AsciiLength(text, offset);
      AsciiOffsets(text, offset + 1);
      OneMoreOffset(offset, Utf8Offsets(text, offset + 1));
    }
  }

  /** Each unit of `c` is one byte of its text. */
  ghost predicate CutByByte(c: Cut) {
    && |c.units| == |c.text| && |c.cuts| == |c.text| + 1
    && (forall k | 0 <= k <= |c.text| :: c.cuts[k] == k)
    && (forall k | 0 <= k < |c.text| :: c.units[k] == Unit(Symbol, [c.text[k]]))
  }

  lemma {:induction false} AsciiUnits(text: Line)
    requires Ascii(text)
    ensures CutByByte(ByCodepoint(text))
  {
    AsciiOffsets(text, 0);
    hide Utf8Offsets;
    var c := ByCodepoint(text);
    forall k | 0 <= k < |text| ensures c.units[k] == Unit(Symbol, [text[k]]) {
      assert c.cuts[k] == k && c.cuts[k + 1] == k + 1;
      assert text[k..k + 1] == [text[k]];
    }
  }

  lemma {:induction false} PrefixFromIs<T>(a: seq<T>, b: seq<T>, k: nat, p: nat)
    requires k <= p <= |a| && p <= |b| && (p == |a| || p == |b| || a[p] != b[p])
    requires a[..p] == b[..p]
    ensures PrefixFrom(a, b, k) == p
    decreases p - k
  {
    if k < p {
      assert a[..p][k] == a[k] && b[..p][k] == b[k];
      PrefixFromIs(a, b, k + 1, p);
    }
  }

  lemma {:induction false} SuffixFromIs<T>(a: seq<T>, b: seq<T>, prefix: nat, k: nat, s: nat)
    requires k <= s && prefix + s <= |a| && prefix + s <= |b|
    requires prefix + s == |a| || prefix + s == |b| || a[|a| - 1 - s] != b[|b| - 1 - s]
    requires a[|a| - s..] == b[|b| - s..]
    ensures SuffixFrom(a, b, prefix, k) == s
    decreases s - k
  {
    if k < s {
      assert a[|a| - s..][s - 1 - k] == a[|a| - 1 - k] && b[|b| - s..][s - 1 - k] == b[|b| - 1 - k];
      SuffixFromIs(a, b, prefix, k + 1, s);
    }
  }

  lemma {:induction false} AsciiWindows(left: Line, right: Line, p: nat, s: nat)
    requires Ascii(left) && Ascii(right) && p + s == |left| < |right|
    requires left[..p] == right[..p] && left[p..] == right[|right| - s..]
    requires s > 0 ==> left[p] != right[p]
    ensures Windows(left, right) == ((p, p), (p, |right| - s))
  {
    AsciiUnits(left);
    AsciiUnits(right);
    hide ByCodepoint, Ascii, CutByByte;
    AsciiEnds(ByCodepoint(left), ByCodepoint(right), p, s);
  }

  lemma {:induction false} AsciiEnds(a: Cut, b: Cut, p: nat, s: nat)
    requires CutByByte(a) && CutByByte(b) && p + s == |a.text| < |b.text|
    requires a.text[..p] == b.text[..p] && a.text[p..] == b.text[|b.text| - s..]
    requires s > 0 ==> a.text[p] != b.text[p]
    ensures Prefix(a.units, b.units) == p && Suffix(a.units, b.units) == s
    ensures Window(a, p, s) == (p, p) && Window(b, p, s) == (p, |b.text| - s)
  {
    EndsOfBytes(a.text, b.text, a.units, b.units, p, s);
  }

  lemma {:induction false} EndsOfBytes(left: Line, right: Line, l: seq<Unit>, r: seq<Unit>, p: nat, s: nat)
    requires |l| == |left| && |r| == |right| && p + s == |left| < |right|
    requires forall k | 0 <= k < |left| :: l[k] == Unit(Symbol, [left[k]])
    requires forall k | 0 <= k < |right| :: r[k] == Unit(Symbol, [right[k]])
    requires left[..p] == right[..p] && left[p..] == right[|right| - s..]
    requires s > 0 ==> left[p] != right[p]
    ensures Prefix(l, r) == p && Suffix(l, r) == s
  {
    var u, v := l[..p], r[..p];
    forall k | 0 <= k < p ensures u[k] == v[k] {
      assert left[k] == left[..p][k] == right[..p][k] == right[k];
    }
    assert s > 0 ==> [left[p]][0] != [right[p]][0];
    PrefixFromIs(l, r, 0, p);
    var x, y := l[|l| - s..], r[|r| - s..];
    forall k | 0 <= k < s ensures x[k] == y[k] {
      assert left[p + k] == left[p..][k] == right[|right| - s..][k] == right[|right| - s + k];
    }
    SuffixFromIs(l, r, p, 0, s);
  }

  lemma {:induction false} RunEndIs(text: Line, offset: nat, kind: LineTokenKind, end: nat)
    requires Ascii(text) && offset <= end <= |text|
    requires forall k | offset <= k < end :: ClassifyCodepoint(text, k) == kind
    requires end == |text| || ClassifyCodepoint(text, end) != kind
    ensures RunEnd(text, offset, kind) == end
    decreases end - offset
  {
    hide ClassifyCodepoint;
    if offset < end {
      assert text[offset] as int <= 0x7F;
      RunEndIs(text, offset + 1, kind, end);
    }
  }

  lemma {:induction false} TokenizeOn(text: Line, offset: nat)
    requires offset < |text|
    ensures Tokenize(text, offset) == [TokenAt(text, offset)] + Tokenize(text, TokenAt(text, offset).end)
  {
  }

  lemma {:induction false} AsciiTokenize(text: Line, offset: nat, kind: LineTokenKind, end: nat)
    requires Ascii(text) && offset < end <= |text| && kind != Symbol
    requires forall k | offset <= k < end :: ClassifyCodepoint(text, k) == kind
    requires end == |text| || ClassifyCodepoint(text, end) != kind
    ensures Tokenize(text, offset) == [LineToken(offset, end, kind)] + Tokenize(text, end)
  {
    hide ClassifyCodepoint, RunEnd, Utf8SequenceLength, Tokenize;
    TokenizeOn(text, offset);
    AsciiLength(text, offset);
    RunEndIs(text, offset + 1, kind, end);
  }

  const LEFT_EXAMPLE: Line := "ab x"
  const RIGHT_EXAMPLE: Line := "abc ab x"

  lemma {:induction false} ExampleWindows()
    ensures Windows(LEFT_EXAMPLE, RIGHT_EXAMPLE) == ((2, 2), (2, 6))
  {
    AsciiWindows(LEFT_EXAMPLE, RIGHT_EXAMPLE, 2, 2);
  }

  lemma {:induction false} ExampleTokens()
    ensures Tokenize(LEFT_EXAMPLE, 0) == [LineToken(0, 2, Word), LineToken(2, 3, Whitespace), LineToken(3, 4, Word)]
    ensures Tokenize(RIGHT_EXAMPLE, 0) == [LineToken(0, 3, Word), LineToken(3, 4, Whitespace), LineToken(4, 6, Word),
                                           LineToken(6, 7, Whitespace), LineToken(7, 8, Word)]
  {
    var l, r := LEFT_EXAMPLE, RIGHT_EXAMPLE;
    hide Tokenize;
    AsciiTokenize(l, 0, Word, 2);
    AsciiTokenize(l, 2, Whitespace, 3);
    AsciiTokenize(l, 3, Word, 4);
    TokenizeDone(l);
    AsciiTokenize(r, 0, Word, 3);
    AsciiTokenize(r, 3, Whitespace, 4);
    AsciiTokenize(r, 4, Word, 6);
    AsciiTokenize(r, 6, Whitespace, 7);
    AsciiTokenize(r, 7, Word, 8);
    TokenizeDone(r);
  }

  lemma {:induction false} TokenizeDone(text: Line)
    ensures Tokenize(text, |text|) == []
  {
  }

  lemma {:induction false} ExampleUnits()
    ensures ByToken(LEFT_EXAMPLE).units == [Unit(Word, "ab"), Unit(Whitespace, " "), Unit(Word, "x")]
    ensures ByToken(RIGHT_EXAMPLE).units
         == [Unit(Word, "abc"), Unit(Whitespace, " "), Unit(Word, "ab"), Unit(Whitespace, " "), Unit(Word, "x")]
    ensures ByToken(LEFT_EXAMPLE).cuts == [0, 2, 3, 4] && ByToken(RIGHT_EXAMPLE).cuts == [0, 3, 4, 6, 7, 8]
  {
    var l, r := LEFT_EXAMPLE, RIGHT_EXAMPLE;
    ExampleTokens();
    hide Tokenize, TokenUnits, TokenCuts;
    assert l[0..2] == "ab" && l[2..3] == " " && l[3..4] == "x";
    assert r[0..3] == "abc" && r[3..4] == " " && r[4..6] == "ab" && r[6..7] == " " && r[7..8] == "x";
  }

  /** The token path marks "abc " on the right and nothing on the left. */
  lemma {:induction false} ExampleMarks()
    ensures Untrimmed(LEFT_EXAMPLE, RIGHT_EXAMPLE) == Marks([], [Span(0, 4)])
  {
    ExampleUnits();
    hide ByToken;
    var l, r := ByToken(LEFT_EXAMPLE), ByToken(RIGHT_EXAMPLE);
    assert l.units[0].text != r.units[0].text;
    PrefixFromIs(l.units, r.units, 0, 0);
    SuffixFromIs(l.units, r.units, 0, 0, 3);
    hide Suffix, Prefix, TokenPairs, MarksOf;
    MarksAfterInsert(l, r);
  }

  lemma {:induction false} NoFlagsNoSpans(cuts: seq<nat>, changed: seq<bool>, k: nat)
    requires |cuts| == |changed| + 1 && k <= |changed| && forall i | k <= i < |changed| :: !changed[i]
    ensures SpansFrom(cuts, changed, k) == []
    decreases |changed| - k
  {
    if k < |changed| {
      NoFlagsNoSpans(cuts, changed, k + 1);
    }
  }

  lemma {:induction false} FlagRunEndIs(changed: seq<bool>, k: nat, end: nat)
    requires k <= end < |changed| && !changed[end] && forall i | k <= i < end :: changed[i]
    ensures FlagRunEnd(changed, k) == end
    decreases end - k
  {
    if k < end {
      FlagRunEndIs(changed, k + 1, end);
    }
  }

  /** Where everything on the left is among the equal ends, only the middle on the right is marked. */
  lemma {:induction false} MarksAfterInsert(l: Cut, r: Cut)
    requires |l.cuts| == |l.units| + 1 && |r.cuts| == |r.units| + 1
    requires Prefix(l.units, r.units) == 0 && 0 < Suffix(l.units, r.units) == |l.units| < |r.units|
    ensures MarksOf(l, r, TokenPairs(l.units, r.units)) == Marks([], [Span(r.cuts[0], r.cuts[|r.units| - |l.units|])])
  {
    var n := |r.units| - |l.units|;
    assert TokenPairs(l.units, r.units) == [];
    FlagsOfNothing(0, n);
    var f, g := LeftChanged(l.units, r.units, []), RightChanged(l.units, r.units, []);
    assert g == Repeat(true, n) + Repeat(false, |l.units|);
    NoFlagsNoSpans(l.cuts, f, 0);
    FlagRunEndIs(g, 0, n);
    NoFlagsNoSpans(r.cuts, g, n);
  }

  lemma {:induction false} ClipOne(span: Span, lo: nat, hi: nat)
    requires span.start < span.end && lo < span.end && span.start < hi && lo < hi
    ensures Clip([span], lo, hi) == [Span(Max(span.start, lo), Min(span.end, hi))]
  {
    assert Clip([span][..0], lo, hi) == [];
  }

  lemma {:induction false} LeftWithout()
    ensures Without(LEFT_EXAMPLE, [], 0) == "ab x"
  {
  }

  lemma {:induction false} RightWithout()
    ensures Without(RIGHT_EXAMPLE, [Span(0, 4)], 0) == "ab x"
    ensures Without(RIGHT_EXAMPLE, [Span(2, 4)], 0) == "abab x"
  {
    var r := RIGHT_EXAMPLE;
    assert r[0..0] == "" && r[0..2] == "ab" && r[4..8] == "ab x";
    assert Without(r, [], 4) == r[4..8];
    assert [Span(0, 4)][1..] == [] && [Span(2, 4)][1..] == [];
  }

  /** At this row the property fails: "ab x" is left on both sides before trimming, and "abab x" on the
      right after it. */
  lemma {:induction false} TrimmingMayGiveTextBack()
    ensures var marks := Untrimmed(LEFT_EXAMPLE, RIGHT_EXAMPLE);
            var trimmed := Trimmed(LEFT_EXAMPLE, RIGHT_EXAMPLE, marks);
            && Without(LEFT_EXAMPLE, marks.left, 0) == Without(RIGHT_EXAMPLE, marks.right, 0) == "ab x"
            && Without(LEFT_EXAMPLE, trimmed.left, 0) == "ab x"
            && Without(RIGHT_EXAMPLE, trimmed.right, 0) == "abab x"
  {
    ExampleWindows();
    ExampleMarks();
    hide Windows, Untrimmed;
    assert Clip([], 2, 2) == [];
    ClipOne(Span(0, 4), 2, 6);
    LeftWithout();
    RightWithout();
  }
}
