/** The anchor search of the large-diff path: a longest strictly ascending chain of lines that
    occur exactly once on each side, found with patience piles. */
module UniqueAnchors {
  import opened Basics
  import opened Text
  import opened Sorting
  import opened CommonSubsequence

  // ----- Specification -----

  /** How often `line` occurs in `lines[lo..hi]`. */
  function CountIn(lines: seq<Line>, lo: nat, hi: nat, line: Line): nat
    requires lo <= hi <= |lines|
  {
    if lo == hi then 0 else CountIn(lines, lo, hi - 1, line) + if lines[hi - 1] == line then 1 else 0
  }

  /** The last place `line` occurs in `lines[lo..hi]`, or 0. */
  function LastIn(lines: seq<Line>, lo: nat, hi: nat, line: Line): nat
    requires lo <= hi <= |lines|
  {
    if lo == hi then 0 else if lines[hi - 1] == line then hi - 1 else LastIn(lines, lo, hi - 1, line)
  }

  /** The two slices an anchor search looks at. */
  datatype Bounds = Bounds(left: seq<Line>, leftBegin: nat, leftEnd: nat, right: seq<Line>, rightBegin: nat,
                           rightEnd: nat)

  type Slices = b: Bounds | b.leftBegin <= b.leftEnd <= |b.left| && b.rightBegin <= b.rightEnd <= |b.right|
    witness Bounds([], 0, 0, [], 0, 0)

  predicate UniqueOnBothSides(s: Slices, line: Line)
  {
    && line != ""
    && CountIn(s.left, s.leftBegin, s.leftEnd, line) == 1
    && CountIn(s.right, s.rightBegin, s.rightEnd, line) == 1
  }

  /** Lines unique on both sides, by left position from `i` on, with their right positions. */
  function Candidates(s: Slices, i: nat): seq<Pair>
    requires s.leftBegin <= i <= s.leftEnd
    decreases s.leftEnd - i
  {
    if i == s.leftEnd then []
    else (if UniqueOnBothSides(s, s.left[i]) then [(i, LastIn(s.right, s.rightBegin, s.rightEnd, s.left[i]))] else [])
         + Candidates(s, i + 1)
  }

  const NO_INDEX := -1

  datatype Piles = Piles(tops: seq<nat>, last: seq<nat>, predecessor: seq<int>)

  /** First position from `from` on whose value is at least `x` (`std::lower_bound`). */
  function LowerBound(xs: seq<nat>, x: nat, from: nat): (k: nat)
    requires from <= |xs|
    ensures from <= k <= |xs|
    decreases |xs| - from
  {
    if from == |xs| || x <= xs[from] then from else LowerBound(xs, x, from + 1)
  }

  lemma {:induction false} LowerBoundSplits(xs: seq<nat>, x: nat, from: nat)
    requires from <= |xs|
    ensures var k := LowerBound(xs, x, from);
      (forall m | from <= m < k :: xs[m] < x) && (k < |xs| ==> x <= xs[k])
    decreases |xs| - from
  {
    if from < |xs| && xs[from] < x {
      LowerBoundSplits(xs, x, from + 1);
    }
  }

  /** Candidate `k` goes onto the first pile whose top is not left of it, or opens a new one,
      and is linked to the top of the pile before. */
  function DealOne(p: Piles, c: seq<Pair>, k: nat): (q: Piles)
    requires k < |c| == |p.predecessor| && |p.tops| == |p.last|
    ensures |q.tops| == |q.last| && |q.predecessor| == |c|
  {
    var pile := LowerBound(p.tops, c[k].1, 0);
    var predecessor := if pile > 0 then p.predecessor[k := p.last[pile - 1]] else p.predecessor;
    if pile == |p.tops| then Piles(p.tops + [c[k].1], p.last + [k], predecessor)
    else Piles(p.tops[pile := c[k].1], p.last[pile := k], predecessor)
  }

  /** The piles after the first `k` candidates. */
  function Deal(c: seq<Pair>, k: nat): (p: Piles)
    requires k <= |c|
    ensures |p.tops| == |p.last| && |p.predecessor| == |c|
  {
    if k == 0 then Piles([], [], seq(|c|, _ => NO_INDEX)) else DealOne(Deal(c, k - 1), c, k - 1)
  }

  ghost predicate Links(predecessor: seq<int>) {
    forall k | 0 <= k < |predecessor| :: NO_INDEX <= predecessor[k] < k
  }

  /** The candidates reached from `index` by predecessor links, first one first. */
  function Chain(c: seq<Pair>, predecessor: seq<int>, index: int): seq<Pair>
    requires |predecessor| == |c| && NO_INDEX <= index < |c| && Links(predecessor)
    decreases index
  {
    if index == NO_INDEX then [] else Chain(c, predecessor, predecessor[index]) + [c[index]]
  }

  /** The chain that ends at the top of the last pile. */
  function TopChain(c: seq<Pair>, p: Piles): seq<Pair>
    requires |p.predecessor| == |c| && Links(p.predecessor)
    requires p.last != [] ==> p.last[|p.last| - 1] < |c|
  {
    if p.last == [] then [] else Chain(c, p.predecessor, p.last[|p.last| - 1])
  }

  function LongestChain(c: seq<Pair>): seq<Pair> {
    DealLinks(c, |c|);
    TopChain(c, Deal(c, |c|))
  }

  function Anchors(s: Slices): seq<Pair>
  {
    LongestChain(Candidates(s, s.leftBegin))
  }

  // ----- Properties -----

  ghost predicate Ascending(p: seq<Pair>) {
    forall x, y | 0 <= x < y < |p| :: p[x].0 < p[y].0 && p[x].1 < p[y].1
  }

  /** `line` stands at `k` and nowhere else in `[lo, hi)`. */
  ghost predicate OnlyAt(lines: seq<Line>, lo: nat, hi: nat, line: Line, k: nat) {
    && lo <= k < hi <= |lines|
    && lines[k] == line
    && forall m | lo <= m < hi && lines[m] == line :: m == k
  }

  /** What an anchor must be: a non-empty line, equal on both sides, once in each slice. */
  ghost predicate IsAnchor(s: Slices, a: Pair)
  {
    && s.leftBegin <= a.0 < s.leftEnd
    && s.rightBegin <= a.1 < s.rightEnd
    && s.left[a.0] == s.right[a.1] != ""
    && OnlyAt(s.left, s.leftBegin, s.leftEnd, s.left[a.0], a.0)
    && OnlyAt(s.right, s.rightBegin, s.rightEnd, s.right[a.1], a.1)
  }

  lemma {:induction false} NoneCounted(lines: seq<Line>, lo: nat, hi: nat, line: Line)
    requires lo <= hi <= |lines|
    ensures CountIn(lines, lo, hi, line) == 0 <==> forall k | lo <= k < hi :: lines[k] != line
  {
    if lo < hi {
      NoneCounted(lines, lo, hi - 1, line);
    }
  }

  lemma {:induction false} OnlyAtEnd(lines: seq<Line>, lo: nat, hi: nat, line: Line, k: nat)
    requires lo < hi <= |lines|
    ensures lines[hi - 1] != line ==> (OnlyAt(lines, lo, hi, line, k) <==> OnlyAt(lines, lo, hi - 1, line, k))
    ensures lines[hi - 1] == line ==>
              (OnlyAt(lines, lo, hi, line, k) <==> k == hi - 1 && forall m | lo <= m < hi - 1 :: lines[m] != line)
  {
  }

  /** A line counted once stands only where it was seen last. */
  lemma {:induction false} OneCounted(lines: seq<Line>, lo: nat, hi: nat, line: Line, k: nat)
    requires lo <= hi <= |lines|
    ensures OnlyAt(lines, lo, hi, line, k) <==> CountIn(lines, lo, hi, line) == 1 && k == LastIn(lines, lo, hi, line)
    decreases hi
  {
    if lo < hi {
      OnlyAtEnd(lines, lo, hi, line, k);
      NoneCounted(lines, lo, hi - 1, line);
      hide OnlyAt;
      OneCounted(lines, lo, hi - 1, line, k);
    }
  }

  /** A line is unique on both sides exactly when it makes an anchor. */
  lemma {:induction false} UniqueIsAnchor(s: Slices, i: nat)
    requires s.leftBegin <= i < s.leftEnd
    ensures UniqueOnBothSides(s, s.left[i]) ==>
      IsAnchor(s, (i, LastIn(s.right, s.rightBegin, s.rightEnd, s.left[i])))
    ensures forall j: nat :: IsAnchor(s, (i, j)) ==>
      UniqueOnBothSides(s, s.left[i]) && j == LastIn(s.right, s.rightBegin, s.rightEnd, s.left[i])
  {
    var line := s.left[i];
    var last, other := LastIn(s.left, s.leftBegin, s.leftEnd, line), LastIn(s.right, s.rightBegin, s.rightEnd, line);
    OneCounted(s.left, s.leftBegin, s.leftEnd, line, last);
    OneCounted(s.left, s.leftBegin, s.leftEnd, line, i);
    OneCounted(s.right, s.rightBegin, s.rightEnd, line, other);
    forall j: nat | IsAnchor(s, (i, j)) ensures UniqueOnBothSides(s, line) && j == other {
      OneCounted(s.right, s.rightBegin, s.rightEnd, line, j);
    }
  }

  /** The candidates are exactly the anchors, by ascending left position. */
  lemma {:induction false} CandidatesAreAnchors(s: Slices, i: nat)
    requires s.leftBegin <= i <= s.leftEnd
    ensures forall a: Pair :: a in Candidates(s, i) <==> a.0 >= i && IsAnchor(s, a)
    ensures forall x, y | 0 <= x < y < |Candidates(s, i)| :: Candidates(s, i)[x].0 < Candidates(s, i)[y].0
    decreases s.leftEnd - i
  {
    if i < s.leftEnd {
      var rest := Candidates(s, i + 1);
      CandidatesAreAnchors(s, i + 1);
      UniqueIsAnchor(s, i);
      forall x | 0 <= x < |rest| ensures rest[x].0 > i {
        assert rest[x] in rest;
      }
      forall a: Pair ensures a in Candidates(s, i) <==> a.0 >= i && IsAnchor(s, a) {
      }
    }
  }

  /** Candidates come with distinct right positions. */
  ghost predicate Dealable(c: seq<Pair>) {
    && (forall x, y | 0 <= x < y < |c| :: c[x].0 < c[y].0)
    && (forall x, y | 0 <= x < y < |c| :: c[x].1 != c[y].1)
  }

  type Deck = c: seq<Pair> | Dealable(c) witness []

  lemma {:induction false} CandidatesDealable(s: Slices)
    ensures Dealable(Candidates(s, s.leftBegin))
  {
    var c := Candidates(s, s.leftBegin);
    CandidatesAreAnchors(s, s.leftBegin);
    forall x, y | 0 <= x < y < |c| ensures c[x].1 != c[y].1 {
      assert c[x] in c && c[y] in c;
    }
  }

  lemma {:induction false} DealLinks(c: seq<Pair>, k: nat)
    requires k <= |c|
    ensures Links(Deal(c, k).predecessor)
    ensures forall x | 0 <= x < |Deal(c, k).last| :: Deal(c, k).last[x] < k
  {
    if k > 0 {
      DealLinks(c, k - 1);
    }
  }

  ghost predicate PilesWellFormed(c: seq<Pair>, k: nat, p: Piles) {
    && |p.tops| == |p.last| && |p.predecessor| == |c| && k <= |c|
    && (forall x | 0 <= x < |c| :: NO_INDEX <= p.predecessor[x] < x)
    && (forall x | k <= x < |c| :: p.predecessor[x] == NO_INDEX)
    && (forall x | 0 < x < |p.tops| :: p.tops[x - 1] < p.tops[x])
    && (forall x {:trigger p.last[x]} | 0 <= x < |p.last| :: p.last[x] < k && p.tops[x] == c[p.last[x]].1)
    && (forall x {:trigger p.predecessor[x]} | 0 <= x < k && p.predecessor[x] != NO_INDEX ::
          c[p.predecessor[x]].1 < c[x].1)
    && (k > 0 ==> p.last != [])
  }

  /** Every pile's top candidate ends a chain as long as the pile's number. */
  ghost predicate PilesHold(c: seq<Pair>, k: nat, p: Piles) {
    && PilesWellFormed(c, k, p)
    && (forall x | 0 <= x < |p.last| :: |Chain(c, p.predecessor, p.last[x])| == x + 1)
  }

  lemma {:induction false} ChainStable(c: seq<Pair>, p: seq<int>, q: seq<int>, index: int)
    requires |p| == |q| == |c| && NO_INDEX <= index < |c| && Links(p) && Links(q)
    requires forall k | 0 <= k <= index :: p[k] == q[k]
    ensures Chain(c, p, index) == Chain(c, q, index)
    decreases index
  {
    if index != NO_INDEX {
      ChainStable(c, p, q, p[index]);
    }
  }

  lemma {:induction false} DealOneWellFormed(c: Deck, k: nat, p: Piles)
    requires k < |c| && PilesWellFormed(c, k, p)
    ensures PilesWellFormed(c, k + 1, DealOne(p, c, k))
  {
    LowerBoundSplits(p.tops, c[k].1, 0);
    forall x | 0 <= x < |p.tops| ensures p.tops[x] != c[k].1 {
      assert p.tops[x] == c[p.last[x]].1;
    }
  }

  lemma {:induction false} DealOneHolds(c: Deck, k: nat, p: Piles)
    requires k < |c| && PilesHold(c, k, p)
    ensures PilesHold(c, k + 1, DealOne(p, c, k))
  {
    var q := DealOne(p, c, k);
    DealOneWellFormed(c, k, p);
    forall x | 0 <= x < |p.last| ensures |Chain(c, q.predecessor, p.last[x])| == x + 1 {
      ChainStable(c, p.predecessor, q.predecessor, p.last[x]);
    }
    var pile := LowerBound(p.tops, c[k].1, 0);
    forall x | 0 <= x < |q.last| ensures |Chain(c, q.predecessor, q.last[x])| == x + 1 {
      if x == pile {
        assert q.last[x] == k && q.predecessor[k] == if pile > 0 then p.last[pile - 1] else NO_INDEX;
      } else {
        assert q.last[x] == p.last[x];
      }
    }
  }

  lemma {:induction false} NothingDealt(c: Deck)
    ensures PilesHold(c, 0, Deal(c, 0))
  {
  }

  lemma {:induction false} DealHolds(c: Deck, k: nat)
    requires k <= |c|
    ensures PilesHold(c, k, Deal(c, k))
  {
    hide PilesHold, DealOne;
    if k == 0 {
      NothingDealt(c);
    } else {
      DealHolds(c, k - 1);
      DealOneHolds(c, k - 1, Deal(c, k - 1));
    }
  }

  /** There are piles for the whole chain `q`, and the last of them is topped no further right. */
  ghost predicate Accommodates(p: Piles, q: seq<Pair>) {
    q != [] ==> |q| <= |p.tops| && p.tops[|q| - 1] <= q[|q| - 1].1
  }

  lemma {:induction false} TopsAscend(tops: seq<nat>, x: nat, y: nat)
    requires forall m | 0 < m < |tops| :: tops[m - 1] < tops[m]
    requires x <= y < |tops|
    ensures tops[x] <= tops[y]
  {
    if x < y {
      TopsAscend(tops, x, y - 1);
    }
  }

  lemma {:induction false} DealOneAccommodates(c: Deck, k: nat, p: Piles, q: seq<Pair>)
    requires k < |c| && PilesWellFormed(c, k, p) && Ascending(q) && q != []
    requires Accommodates(p, q) || (q[|q| - 1] == c[k] && Accommodates(p, q[..|q| - 1]))
    ensures Accommodates(DealOne(p, c, k), q)
  {
    LowerBoundSplits(p.tops, c[k].1, 0);
    var n, pile, tops := |q| - 1, LowerBound(p.tops, c[k].1, 0), DealOne(p, c, k).tops;
    if Accommodates(p, q) {
      assert tops[n] == if n == pile then c[k].1 else p.tops[n];
    } else {
      assert n > 0 ==> p.tops[n - 1] <= q[n - 1].1 < c[k].1;
      if pile < n {
        TopsAscend(p.tops, pile, n - 1);
      }
      assert n == pile;
    }
  }

  /** No ascending chain of dealt candidates outgrows the piles. */
  lemma {:induction false} PilesBound(c: Deck, k: nat, q: seq<Pair>)
    requires k <= |c| && Ascending(q)
    requires forall m | 0 <= m < |q| :: q[m] in c[..k]
    ensures Accommodates(Deal(c, k), q)
    decreases k
  {
    if q != [] {
      assert q[0] in c[..k];
      ChainBeforeNewest(c, k, q);
      if q[|q| - 1] != c[k - 1] {
        PilesBound(c, k - 1, q);
      } else {
        PilesBound(c, k - 1, q[..|q| - 1]);
      }
      NextDealAccommodates(c, k, q);
    }
  }

  lemma {:induction false} NextDealAccommodates(c: Deck, k: nat, q: seq<Pair>)
    requires 0 < k <= |c| && Ascending(q) && q != []
    requires Accommodates(Deal(c, k - 1), q)
      || (q[|q| - 1] == c[k - 1] && Accommodates(Deal(c, k - 1), q[..|q| - 1]))
    ensures Accommodates(Deal(c, k), q)
  {
    hide Accommodates;
    DealHolds(c, k - 1);
    DealOneAccommodates(c, k - 1, Deal(c, k - 1), q);
  }

  /** Only the last link of a chain can be the newest candidate. */
  lemma {:induction false} ChainBeforeNewest(c: Deck, k: nat, q: seq<Pair>)
    requires 0 < k <= |c| && Ascending(q) && q != []
    requires forall m | 0 <= m < |q| :: q[m] in c[..k]
    ensures forall m | 0 <= m < |q| - 1 :: q[m] in c[..k - 1]
    ensures q[|q| - 1] != c[k - 1] ==> forall m | 0 <= m < |q| :: q[m] in c[..k - 1]
  {
    forall m | 0 <= m < |q| && (m < |q| - 1 || q[m] != c[k - 1]) ensures q[m] in c[..k - 1] {
      BeforeNewest(c, k, q, m);
    }
  }

  lemma {:induction false} BeforeNewest(c: Deck, k: nat, q: seq<Pair>, m: nat)
    requires 0 < k <= |c| && Ascending(q) && m < |q|
    requires q[m] in c[..k] && q[|q| - 1] in c[..k]
    requires m < |q| - 1 || q[m] != c[k - 1]
    ensures q[m] in c[..k - 1]
  {
    var x :| 0 <= x < k && c[..k][x] == q[m];
    var y :| 0 <= y < k && c[..k][y] == q[|q| - 1];
    assert x != k - 1;
    assert c[..k - 1][x] == q[m];
  }

  lemma {:induction false} ChainAscends(c: Deck, k: nat, p: Piles, index: int)
    requires PilesHold(c, k, p) && NO_INDEX <= index < k
    ensures Ascending(Chain(c, p.predecessor, index))
    ensures index != NO_INDEX ==>
      var chain := Chain(c, p.predecessor, index); chain != [] && chain[|chain| - 1] == c[index]
    ensures forall a | a in Chain(c, p.predecessor, index) :: a in c
    decreases index
  {
    if index != NO_INDEX {
      var before := p.predecessor[index];
      ChainAscends(c, k, p, before);
      var chain := Chain(c, p.predecessor, before);
      if before != NO_INDEX {
        assert forall x | 0 <= x < |chain| :: chain[x].0 <= c[before].0 && chain[x].1 <= c[before].1;
      }
    }
  }

  lemma {:induction false} TopChainAscends(c: Deck, p: Piles)
    requires PilesHold(c, |c|, p)
    ensures Ascending(TopChain(c, p))
    ensures forall a | a in TopChain(c, p) :: a in c
    ensures |TopChain(c, p)| == |p.tops|
  {
    if p.last != [] {
      ChainAscends(c, |c|, p, p.last[|p.last| - 1]);
    }
  }

  lemma {:induction false} LongestChainAscends(c: Deck)
    ensures Ascending(LongestChain(c))
    ensures forall a | a in LongestChain(c) :: a in c
    ensures |LongestChain(c)| == |Deal(c, |c|).tops|
  {
    DealHolds(c, |c|);
    TopChainAscends(c, Deal(c, |c|));
  }

  /** The anchors ascend strictly on both sides, every one is a non-empty line that occurs once
      on each side, and no chain of such lines is longer. */
  lemma {:induction false} AnchorsAreLongestChain(s: Slices, other: seq<Pair>)
    requires Ascending(other) && forall m | 0 <= m < |other| :: IsAnchor(s, other[m])
    ensures Ascending(Anchors(s))
    ensures forall a | a in Anchors(s) :: IsAnchor(s, a)
    ensures |other| <= |Anchors(s)|
  {
    var c := Candidates(s, s.leftBegin);
    CandidatesAreAnchors(s, s.leftBegin);
    CandidatesDealable(s);
    LongestChainAscends(c);
    assert c[..|c|] == c;
    PilesBound(c, |c|, other);
  }

  // ----- The algorithm -----

  datatype AnchorInfo = AnchorInfo(leftCount: nat, rightCount: nat, leftIndex: nat, rightIndex: nat)

  /** Per-line counts and last positions, indexed by interned id. */
  datatype LineTable = LineTable(keys: seq<Line>, info: seq<AnchorInfo>)

  /** `table` describes `left[leftBegin..i]` and `right[rightBegin..j]`. */
  ghost predicate Describes(table: LineTable, s: Slices, i: nat, j: nat) {
    && s.leftBegin <= i <= s.leftEnd && s.rightBegin <= j <= s.rightEnd
    && |table.info| == |table.keys|
    && (forall x, y | 0 <= x < y < |table.keys| :: table.keys[x] != table.keys[y])
    && (forall k | s.leftBegin <= k < i :: s.left[k] in table.keys)
    && (forall k | s.rightBegin <= k < j :: s.right[k] in table.keys)
    && (forall x | 0 <= x < |table.keys| ::
          table.info[x] == AnchorInfo(
            CountIn(s.left, s.leftBegin, i, table.keys[x]), CountIn(s.right, s.rightBegin, j, table.keys[x]),
            LastIn(s.left, s.leftBegin, i, table.keys[x]), LastIn(s.right, s.rightBegin, j, table.keys[x])))
  }

  lemma {:induction false} LastAbsent(lines: seq<Line>, lo: nat, hi: nat, line: Line)
    requires lo <= hi <= |lines| && forall k | lo <= k < hi :: lines[k] != line
    ensures LastIn(lines, lo, hi, line) == 0 && CountIn(lines, lo, hi, line) == 0
  {
    if lo < hi {
      LastAbsent(lines, lo, hi - 1, line);
    }
  }

  /** The entry for `line`, created empty when it is new. */
  method InfoFor(table: LineTable, line: Line, ghost s: Slices, ghost i: nat, ghost j: nat)
    returns (next: LineTable, id: nat)
    requires Describes(table, s, i, j)
    ensures Describes(next, s, i, j)
    ensures id < |next.keys| && next.keys[id] == line
  {
    id := 0;
    while id < |table.keys| && table.keys[id] != line
      invariant 0 <= id <= |table.keys|
      invariant forall x | 0 <= x < id :: table.keys[x] != line
    {
      id := id + 1;
    }
    next := table;
    if id == |table.keys| {
      assert line !in table.keys;
      LastAbsent(s.left, s.leftBegin, i, line);
      LastAbsent(s.right, s.rightBegin, j, line);
      next := LineTable(table.keys + [line], table.info + [AnchorInfo(0, 0, 0, 0)]);
    }
  }

  lemma {:induction false} LeftCounted(table: LineTable, s: Slices, i: nat, j: nat, id: nat)
    requires Describes(table, s, i, j) && i < s.leftEnd && id < |table.keys| && table.keys[id] == s.left[i]
    ensures var info := table.info[id].(leftCount := table.info[id].leftCount + 1, leftIndex := i);
            Describes(LineTable(table.keys, table.info[id := info]), s, i + 1, j)
  {
  }

  lemma {:induction false} RightCounted(table: LineTable, s: Slices, i: nat, j: nat, id: nat)
    requires Describes(table, s, i, j) && j < s.rightEnd && id < |table.keys| && table.keys[id] == s.right[j]
    ensures var info := table.info[id].(rightCount := table.info[id].rightCount + 1, rightIndex := j);
            Describes(LineTable(table.keys, table.info[id := info]), s, i, j + 1)
  {
  }

  method CountLines(s: Slices) returns (table: LineTable)
    ensures Describes(table, s, s.leftEnd, s.rightEnd)
  {
    table := LineTable([], []);
    assert Describes(table, s, s.leftBegin, s.rightBegin);
    hide Describes;
    for i := s.leftBegin to s.leftEnd
      invariant Describes(table, s, i, s.rightBegin)
    {
      var next, id := InfoFor(table, s.left[i], s, i, s.rightBegin);
      LeftCounted(next, s, i, s.rightBegin, id);
      var info := next.info[id].(leftCount := next.info[id].leftCount + 1, leftIndex := i);
      table := LineTable(next.keys, next.info[id := info]);
    }
    for j := s.rightBegin to s.rightEnd
      invariant Describes(table, s, s.leftEnd, j)
    {
      var next, id := InfoFor(table, s.right[j], s, s.leftEnd, j);
      RightCounted(next, s, s.leftEnd, j, id);
      var info := next.info[id].(rightCount := next.info[id].rightCount + 1, rightIndex := j);
      table := LineTable(next.keys, next.info[id := info]);
    }
  }

  predicate PairAtMost(x: Pair, y: Pair) {
    x.0 < y.0 || (x.0 == y.0 && x.1 <= y.1)
  }

  /** A non-empty line that stands once on each side has one anchor. */
  lemma {:induction false} OneAnchorOf(s: Slices, line: Line, i: nat, j: nat)
    requires line != "" && OnlyAt(s.left, s.leftBegin, s.leftEnd, line, i)
    requires OnlyAt(s.right, s.rightBegin, s.rightEnd, line, j)
    ensures IsAnchor(s, (i, j)) && s.left[i] == line
    ensures forall a: Pair | IsAnchor(s, a) && s.left[a.0] == line :: a == (i, j)
  {
  }

  /** Any other line has none. */
  lemma {:induction false} NoAnchorOf(s: Slices, line: Line)
    requires line == "" || (forall k: nat :: !OnlyAt(s.left, s.leftBegin, s.leftEnd, line, k))
             || (forall k: nat :: !OnlyAt(s.right, s.rightBegin, s.rightEnd, line, k))
    ensures forall a: Pair | IsAnchor(s, a) :: s.left[a.0] != line
  {
    hide OnlyAt;
  }

  /** A table entry holds an anchor exactly when its line is non-empty and counted once on each side. */
  lemma {:induction false} EntryMeaning(table: LineTable, s: Slices, id: nat)
    requires Describes(table, s, s.leftEnd, s.rightEnd) && id < |table.keys|
    ensures var (line, info) := (table.keys[id], table.info[id]);
      if line != "" && info.leftCount == 1 && info.rightCount == 1
      then IsAnchor(s, (info.leftIndex, info.rightIndex)) && s.left[info.leftIndex] == line
           && forall a: Pair | IsAnchor(s, a) && s.left[a.0] == line :: a == (info.leftIndex, info.rightIndex)
      else forall a: Pair | IsAnchor(s, a) :: s.left[a.0] != line
  {
    hide CountIn, LastIn, OnlyAt, IsAnchor;
    var line, info := table.keys[id], table.info[id];
    if line != "" && info.leftCount == 1 && info.rightCount == 1 {
      OneCounted(s.left, s.leftBegin, s.leftEnd, line, info.leftIndex);
      OneCounted(s.right, s.rightBegin, s.rightEnd, line, info.rightIndex);
      OneAnchorOf(s, line, info.leftIndex, info.rightIndex);
    } else {
      forall k: nat ensures OnlyAt(s.left, s.leftBegin, s.leftEnd, line, k) ==> info.leftCount == 1
        ensures OnlyAt(s.right, s.rightBegin, s.rightEnd, line, k) ==> info.rightCount == 1 {
        OneCounted(s.left, s.leftBegin, s.leftEnd, line, k);
        OneCounted(s.right, s.rightBegin, s.rightEnd, line, k);
      }
      NoAnchorOf(s, line);
    }
  }

  lemma {:induction false} AnchorsAreInTable(table: LineTable, s: Slices)
    requires Describes(table, s, s.leftEnd, s.rightEnd)
    ensures forall a: Pair | IsAnchor(s, a) :: s.left[a.0] in table.keys
  {
  }

  method CollectCandidates(table: LineTable, ghost s: Slices) returns (candidates: seq<Pair>)
    requires Describes(table, s, s.leftEnd, s.rightEnd)
    ensures candidates == Candidates(s, s.leftBegin)
  {
    AnchorsAreInTable(table, s);
    assert |table.info| == |table.keys| && Distinct(table.keys);
    hide Describes, IsAnchor;
    var found: seq<Pair> := [];
    for id := 0 to |table.keys|
      invariant forall a | a in found :: IsAnchor(s, a) && s.left[a.0] in table.keys[..id]
      invariant Distinct(found)
      invariant forall a: Pair | IsAnchor(s, a) && s.left[a.0] in table.keys[..id] :: a in found
    {
      var info := table.info[id];
      var line := table.keys[id];
      assert table.keys[..id + 1] == table.keys[..id] + [line];
      assert line !in table.keys[..id];
      EntryMeaning(table, s, id);
      if line != "" && info.leftCount == 1 && info.rightCount == 1 {
        forall x | 0 <= x < |found| ensures found[x] != (info.leftIndex, info.rightIndex) {
          assert found[x] in found;
        }
        found := found + [(info.leftIndex, info.rightIndex)];
      }
    }
    assert table.keys[..|table.keys|] == table.keys;
    candidates := SortCandidates(found, s);
  }

  method SortCandidates(found: seq<Pair>, ghost s: Slices) returns (candidates: seq<Pair>)
    requires forall a: Pair :: a in found <==> IsAnchor(s, a)
    requires Distinct(found)
    ensures candidates == Candidates(s, s.leftBegin)
  {
    candidates := SortBy(found, PairAtMost);
    var c := Candidates(s, s.leftBegin);
    SortBySorts(found, PairAtMost);
    CandidatesAreAnchors(s, s.leftBegin);
    DistinctSameElements(found, c);
    ElementsDecideOrder(candidates, c, PairAtMost);
  }

  method BuildUniqueLineAnchors(s: Slices) returns (anchors: seq<Pair>)
    ensures anchors == Anchors(s)
  {
    var table := CountLines(s);
    var candidates := CollectCandidates(table, s);
    if candidates == [] {
      return [];
    }
    var piles := Piles([], [], seq(|candidates|, _ => NO_INDEX));
    for k := 0 to |candidates|
      invariant piles == Deal(candidates, k)
      invariant k > 0 ==> piles.last != []
    {
      piles := DealCandidate(candidates, k, piles);
    }
    DealLinks(candidates, |candidates|);
    anchors := FollowLinks(candidates, piles.predecessor, piles.last[|piles.last| - 1]);
  }

  method DealCandidate(c: seq<Pair>, k: nat, p: Piles) returns (q: Piles)
    requires k < |c| == |p.predecessor| && |p.tops| == |p.last|
    ensures q == DealOne(p, c, k) && q.last != []
  {
    var right := c[k].1;
    var pile := LowerBound(p.tops, right, 0);
    q := p;
    if pile > 0 {
      q := q.(predecessor := q.predecessor[k := q.last[pile - 1]]);
    }
    if pile == |p.tops| {
      q := q.(tops := q.tops + [right], last := q.last + [k]);
    } else {
      q := q.(tops := q.tops[pile := right], last := q.last[pile := k]);
    }
  }

  function Reversed(p: seq<Pair>): seq<Pair> {
    if p == [] then [] else Reversed(p[1..]) + [p[0]]
  }

  lemma {:induction false} ReversedSnoc(p: seq<Pair>, a: Pair)
    ensures Reversed(p + [a]) == [a] + Reversed(p)
  {
    if p != [] {
      ReversedSnoc(p[1..], a);
      assert (p + [a])[1..] == p[1..] + [a];
    }
  }

  method FollowLinks(c: seq<Pair>, predecessor: seq<int>, last: int) returns (chain: seq<Pair>)
    requires |predecessor| == |c| && NO_INDEX <= last < |c| && Links(predecessor)
    ensures chain == Chain(c, predecessor, last)
  {
    var backwards: seq<Pair> := [];
    var index := last;
    while index != NO_INDEX
      invariant NO_INDEX <= index < |c|
      invariant Chain(c, predecessor, index) + Reversed(backwards) == Chain(c, predecessor, last)
      decreases index
    {
      ReversedSnoc(backwards, c[index]);
      backwards := backwards + [c[index]];
      index := predecessor[index];
    }
    chain := Reversed(backwards);
  }
}
