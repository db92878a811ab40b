/** What a three-way merge promises, over the whole pipeline from texts to result lines. */
module MergeLaws {
  import opened Basics
  import opened Text
  import opened Sorting
  import opened SideChanges
  import opened MergeGroups
  import opened MergeModel

  // ----- The merge as a function of its three texts -----

  /** A side's changes as the diff leaves them. */
  ghost predicate SideFits(changes: seq<SideChange>, base: seq<Line>) {
    Fit(changes, 0, |base|) && Separated(changes)
  }

  function SweepHunks(base: seq<Line>, incoming: seq<SideChange>, current: seq<SideChange>): seq<MergeHunk>
    requires SideFits(incoming, base) && SideFits(current, base)
  {
    SweepFits(base, incoming, current);
    GroupsFitHunks(Groups(InOrder(incoming, current)), base, 0, 0);
    HunksOf(base, Groups(InOrder(incoming, current)), 0)
  }

  predicate PhantomsAgree(base: string, incoming: string, current: string) {
    EndsInNewline(base) && EndsInNewline(incoming) && EndsInNewline(current)
  }

  /** The lines that are diffed: all of them, or all but the phantom when every side has one. */
  function RealLines(lines: seq<Line>, phantomsAgree: bool): seq<Line> {
    if phantomsAgree && lines != [] then lines[..|lines| - 1] else lines
  }

  function SideOfText(base: string, side: string, phantomsAgree: bool): seq<SideChange> {
    ChangesOf(RealLines(SplitLines(base), phantomsAgree), RealLines(SplitLines(side), phantomsAgree))
  }

  function MergeOf(base: string, incoming: string, current: string): Model {
    var agree := PhantomsAgree(base, incoming, current);
    SideOfTextFits(base, incoming, agree);
    SideOfTextFits(base, current, agree);
    Model(SplitLines(base), SplitLines(incoming), SplitLines(current),
          SweepHunks(SplitLines(base), SideOfText(base, incoming, agree), SideOfText(base, current, agree)))
  }

  /** The result lines under a policy. */
  function Result(base: string, incoming: string, current: string, policy: Policy): seq<Line> {
    MergeHunksFit(base, incoming, current);
    var model := MergeOf(base, incoming, current);
    ResultFrom(model.baseLines, model.hunks, 0, policy)
  }

  // ----- The sweep's groups fit the base -----

  lemma {:induction false} StartsAscend(changes: seq<SideChange>, cursor: nat, end: nat, i: nat, k: nat)
    requires Fit(changes, cursor, end) && Separated(changes) && i < k < |changes|
    ensures changes[i].baseStart < changes[k].baseStart
  {
    FitBounds(changes, cursor, end);
    if i < k - 1 {
      StartsAscend(changes, cursor, end, i, k - 1);
    }
  }

  lemma {:induction false} TaggedAscend(incoming: seq<SideChange>, current: seq<SideChange>, base: seq<Line>,
                                        side: MergeSide)
    requires SideFits(incoming, base) && SideFits(current, base)
    ensures SideAscends(TagAll(incoming, Incoming) + TagAll(current, Current), side)
  {
    var all := TagAll(incoming, Incoming) + TagAll(current, Current);
    forall i, k | 0 <= i < k < |all| && all[i].side == side && all[k].side == side
      ensures all[i].Start() < all[k].Start()
    {
      if side == Incoming {
        StartsAscend(incoming, 0, |base|, i, k);
      } else {
        StartsAscend(current, 0, |base|, i - |incoming|, k - |incoming|);
      }
    }
  }

  /** Sorting the tagged changes keeps each side as it was. */
  lemma {:induction false} InOrderKeepsSides(incoming: seq<SideChange>, current: seq<SideChange>, base: seq<Line>)
    requires SideFits(incoming, base) && SideFits(current, base)
    ensures OfSide(InOrder(incoming, current), Incoming) == incoming
    ensures OfSide(InOrder(incoming, current), Current) == current
  {
    var a, b := TagAll(incoming, Incoming), TagAll(current, Current);
    TaggedAscend(incoming, current, base, Incoming);
    TaggedAscend(incoming, current, base, Current);
    SortOfSide(a + b, Incoming);
    SortOfSide(a + b, Current);
    OfSideConcat(a, b, Incoming);
    OfSideConcat(a, b, Current);
    OfSideTagged(incoming, Incoming, Incoming);
    OfSideTagged(incoming, Incoming, Current);
    OfSideTagged(current, Current, Incoming);
    OfSideTagged(current, Current, Current);
  }

  lemma {:induction false} InOrderIsOrdered(incoming: seq<SideChange>, current: seq<SideChange>, base: seq<Line>)
    requires SideFits(incoming, base) && SideFits(current, base)
    ensures Ordered(InOrder(incoming, current))
    ensures forall x | x in InOrder(incoming, current) :: x.End() <= |base|
  {
    var tagged := TagAll(incoming, Incoming) + TagAll(current, Current);
    var all := InOrder(incoming, current);
    NotAfterIsPreorder();
    SortBySorts(tagged, NotAfter);
    PermutationKeepsElements(all, tagged);
    FitBounds(incoming, 0, |base|);
    FitBounds(current, 0, |base|);
    forall x | x in all ensures x.Start() <= x.End() <= |base| {
      assert x in tagged;
    }
    forall k | 0 < k < |all| ensures all[k - 1].Start() <= all[k].Start() {
      assert NotAfter(all[k - 1], all[k]);
    }
  }

  lemma {:induction false} FitSplit(xs: seq<SideChange>, ys: seq<SideChange>, cursor: nat, end: nat)
    requires Fit(xs + ys, cursor, end)
    ensures Fit(xs, cursor, end) && Fit(ys, cursor, end)
    decreases |xs|
  {
    if xs == [] {
      assert xs + ys == ys;
      FitBounds(ys, cursor, end);
    } else {
      assert (xs + ys)[1..] == xs[1..] + ys;
      FitSplit(xs[1..], ys, xs[0].baseEnd, end);
      FitEarlier(ys, cursor, xs[0].baseEnd, end);
    }
  }

  lemma {:induction false} FitWithin(xs: seq<SideChange>, cursor: nat, end: nat, low: nat, high: nat)
    requires Fit(xs, cursor, end) && low <= high
    requires forall k | 0 <= k < |xs| :: low <= xs[k].baseStart && xs[k].baseEnd <= high
    ensures Fit(xs, low, high)
    decreases |xs|
  {
    if xs != [] {
      FitBounds(xs, cursor, end);
      FitWithin(xs[1..], xs[0].baseEnd, end, xs[0].baseEnd, high) by {
        FitBounds(xs[1..], xs[0].baseEnd, end);
      }
    }
  }

  lemma {:induction false} MinStartIsFirst(group: seq<TaggedChange>)
    requires group != [] && Ordered(group)
    ensures MinStart(group) == group[0].Start() && MinStart(group) <= MaxEnd(group)
  {
    var n := |group| - 1;
    if n > 0 {
      assert group[..n] + [group[n]] == group;
      OrderedSuffix(group[..n], [group[n]]);
      MinStartIsFirst(group[..n]);
      OrderedPairs(group, 0, n);
    } else {
      assert group[..0] == [];
    }
  }

  lemma {:induction false} OfSideMembers(group: seq<TaggedChange>, side: MergeSide, c: SideChange)
    requires c in OfSide(group, side)
    ensures exists k :: 0 <= k < |group| && group[k].change == c && group[k].side == side
  {
    if group[0].side == side && group[0].change == c {
      assert group[0].change == c;
    } else {
      OfSideMembers(group[1..], side, c);
      var k :| 0 <= k < |group[1..]| && group[1..][k].change == c && group[1..][k].side == side;
      assert group[k + 1].change == c;
    }
  }

  /** Each side's part of a group fits the group's interval. */
  lemma {:induction false} GroupSideFits(group: seq<TaggedChange>, side: MergeSide, cursor: nat, end: nat)
    requires group != [] && Ordered(group) && Fit(OfSide(group, side), cursor, end)
    ensures MinStart(group) <= MaxEnd(group)
    ensures Fit(OfSide(group, side), MinStart(group), MaxEnd(group))
  {
    var xs := OfSide(group, side);
    MinStartIsFirst(group);
    forall k | 0 <= k < |xs| ensures MinStart(group) <= xs[k].baseStart && xs[k].baseEnd <= MaxEnd(group) {
      OfSideMembers(group, side, xs[k]);
      var m :| 0 <= m < |group| && group[m].change == xs[k] && group[m].side == side;
      OrderedPairs(group, 0, m);
      MaxEndBounds(group, m);
    }
    FitWithin(xs, cursor, end, MinStart(group), MaxEnd(group));
  }

  lemma {:induction false} MaxEndInBase(group: seq<TaggedChange>, end: nat)
    requires group != [] && forall x | x in group :: x.End() <= end
    ensures MaxEnd(group) <= end
  {
    var m := MaxEndAttained(group);
    assert group[m] in group;
  }

  lemma {:induction false} PartitionFits(groups: seq<seq<TaggedChange>>, base: seq<Line>, reach: int, cursor: nat)
    requires Apart(groups, reach) && cursor <= reach + 1 && cursor <= |base|
    requires Ordered(Flatten(groups)) && forall x | x in Flatten(groups) :: x.End() <= |base|
    requires Fit(OfSide(Flatten(groups), Incoming), 0, |base|) && Fit(OfSide(Flatten(groups), Current), 0, |base|)
    ensures GroupsFit(groups, base, cursor)
    decreases |groups|
  {
    if groups != [] {
      var g, rest := groups[0], Flatten(groups[1..]);
      assert Flatten(groups) == g + rest;
      OrderedSuffix(g, rest);
      OfSideConcat(g, rest, Incoming);
      OfSideConcat(g, rest, Current);
      FitSplit(OfSide(g, Incoming), OfSide(rest, Incoming), 0, |base|);
      FitSplit(OfSide(g, Current), OfSide(rest, Current), 0, |base|);
      GroupSideFits(g, Incoming, 0, |base|);
      GroupSideFits(g, Current, 0, |base|);
      MinStartIsFirst(g);
      MaxEndInBase(g, |base|);
      PartitionFits(groups[1..], base, MaxEnd(g), MaxEnd(g));
    }
  }

  lemma {:induction false} SweepFits(base: seq<Line>, incoming: seq<SideChange>, current: seq<SideChange>)
    requires SideFits(incoming, base) && SideFits(current, base)
    ensures GroupsFit(Groups(InOrder(incoming, current)), base, 0)
  {
    var all := InOrder(incoming, current);
    GroupsPartition(all);
    InOrderIsOrdered(incoming, current, base);
    InOrderKeepsSides(incoming, current, base);
    PartitionFits(Groups(all), base, -1, 0);
  }

  // ----- From texts to changes -----

  lemma {:induction false} FitLonger(changes: seq<SideChange>, cursor: nat, end: nat, longer: nat)
    requires Fit(changes, cursor, end) && end <= longer
    ensures Fit(changes, cursor, longer)
    decreases |changes|
  {
    if changes != [] {
      FitLonger(changes[1..], changes[0].baseEnd, end, longer);
    }
  }

  /** A side's changes fit the whole base and turn all of it into all of the side, phantom included. */
  lemma {:induction false} SideOfTextFits(base: string, side: string, phantomsAgree: bool)
    requires phantomsAgree ==> EndsInNewline(base) && EndsInNewline(side)
    ensures SideFits(SideOfText(base, side, phantomsAgree), SplitLines(base))
    ensures Apply(SplitLines(base), 0, |SplitLines(base)|, SideOfText(base, side, phantomsAgree)) == SplitLines(side)
  {
    ChangesRebuildSide(RealLines(SplitLines(base), phantomsAgree), RealLines(SplitLines(side), phantomsAgree));
    if phantomsAgree {
      PhantomIsLast(base);
      PhantomIsLast(side);
    }
    WholeSideFits(SplitLines(base), SplitLines(side), phantomsAgree, SideOfText(base, side, phantomsAgree));
  }

  lemma {:induction false} WholeSideFits(base: seq<Line>, side: seq<Line>, phantomsAgree: bool,
                                         changes: seq<SideChange>)
    requires SideFits(changes, RealLines(base, phantomsAgree))
    requires Apply(RealLines(base, phantomsAgree), 0, |RealLines(base, phantomsAgree)|, changes)
          == RealLines(side, phantomsAgree)
    requires base != [] && side != []
    requires phantomsAgree ==> base[|base| - 1] == "" && side[|side| - 1] == ""
    ensures SideFits(changes, base) && Apply(base, 0, |base|, changes) == side
  {
    if phantomsAgree {
      var n := |base| - 1;
      FitLonger(changes, 0, n, |base|);
      ApplyExtend(base[..n], [""], 0, changes);
      assert base == base[..n] + [""] && side == side[..|side| - 1] + [""];
    }
  }

  lemma {:induction false} MergeHunksFit(base: string, incoming: string, current: string)
    ensures var model := MergeOf(base, incoming, current); HunksFit(model.hunks, model.baseLines, 0)
  {
    var agree := PhantomsAgree(base, incoming, current);
    SideOfTextFits(base, incoming, agree);
    SideOfTextFits(base, current, agree);
    var i, c := SideOfText(base, incoming, agree), SideOfText(base, current, agree);
    SweepFits(SplitLines(base), i, c);
    GroupsFitHunks(Groups(InOrder(i, c)), SplitLines(base), 0, 0);
  }

  // ----- The laws -----

  /** Choosing one version in every hunk gives exactly that version's lines, whether or not the
      three texts agree on the final newline. */
  lemma {:induction false} ChoosingOneSideRebuildsIt(base: string, incoming: string, current: string)
    ensures Result(base, incoming, current, Always(ChooseBase)) == SplitLines(base)
    ensures Result(base, incoming, current, Always(ChooseIncoming)) == SplitLines(incoming)
    ensures Result(base, incoming, current, Always(ChooseCurrent)) == SplitLines(current)
  {
    hide Groups, HunksOf, InOrder, SplitLines;
    var agree := PhantomsAgree(base, incoming, current);
    var lines := SplitLines(base);
    SideOfTextFits(base, incoming, agree);
    SideOfTextFits(base, current, agree);
    var i, c := SideOfText(base, incoming, agree), SideOfText(base, current, agree);
    var groups := Groups(InOrder(i, c));
    SweepFits(lines, i, c);
    GroupsPartition(InOrder(i, c));
    InOrderKeepsSides(i, c, lines);
    GroupsFitHunks(groups, lines, 0, 0);
    HunksCarryBase(groups, lines, 0, 0);
    ChoosingBaseKeeps(lines, HunksOf(lines, groups, 0), 0);
    ChoosingSideReplays(groups, lines, 0, 0, Incoming);
    ChoosingSideReplays(groups, lines, 0, 0, Current);
    assert lines[0..] == lines;
  }

  /** Two policies that contribute the same lines in every hunk give the same result. */
  lemma {:induction false} SameContributions(base: seq<Line>, hunks: seq<MergeHunk>, cursor: nat, p: Policy, q: Policy)
    requires HunksFit(hunks, base, cursor)
    requires forall h | h in hunks :: MergeChoiceLines(h, Choose(h, p)) == MergeChoiceLines(h, Choose(h, q))
    ensures ResultFrom(base, hunks, cursor, p) == ResultFrom(base, hunks, cursor, q)
    decreases |hunks|
  {
    if hunks != [] {
      assert hunks[0] in hunks;
      SameContributions(base, hunks[1..], hunks[0].baseEnd, p, q);
    }
  }

  lemma {:induction false} NoSideKeepsBase(base: seq<Line>, groups: seq<seq<TaggedChange>>, cursor: nat, index: nat,
                                           side: MergeSide)
    requires GroupsFit(groups, base, cursor) && OfSide(Flatten(groups), side) == []
    ensures forall g | g in groups :: InBase(g, base)
    ensures forall h | h in HunksOf(base, groups, index) ::
      (if side == Incoming then h.incomingLines else h.currentLines) == h.baseLines
    decreases |groups|
  {
    GroupsFitHunks(groups, base, cursor, index);
    if groups != [] {
      OfSideConcat(groups[0], Flatten(groups[1..]), side);
      NoSideKeepsBase(base, groups[1..], MaxEnd(groups[0]), index + 1, side);
    }
  }

  /** A side without changes keeps the base in every hunk. */
  lemma {:induction false} UnchangedSideKeepsBase(base: seq<Line>, i: seq<SideChange>, c: seq<SideChange>,
                                                  side: MergeSide)
    requires SideFits(i, base) && SideFits(c, base) && (if side == Incoming then i else c) == []
    ensures forall h | h in SweepHunks(base, i, c) ::
      (if side == Incoming then h.incomingLines else h.currentLines) == h.baseLines
  {
    SweepFits(base, i, c);
    GroupsPartition(InOrder(i, c));
    InOrderKeepsSides(i, c, base);
    NoSideKeepsBase(base, Groups(InOrder(i, c)), 0, 0, side);
  }

  lemma {:induction false} UnchangedTextKeepsBase(base: string, incoming: string, current: string, side: MergeSide)
    requires (if side == Incoming then incoming else current) == base
    ensures forall h | h in MergeOf(base, incoming, current).hunks ::
      (if side == Incoming then h.incomingLines else h.currentLines) == h.baseLines
  {
    var agree := PhantomsAgree(base, incoming, current);
    SideOfTextFits(base, incoming, agree);
    SideOfTextFits(base, current, agree);
    SameHasNoChanges(RealLines(SplitLines(base), agree));
    UnchangedSideKeepsBase(SplitLines(base), SideOfText(base, incoming, agree), SideOfText(base, current, agree), side);
  }

  /** When one side keeps the base in every hunk, the bootstrap choices are the other side's lines. */
  lemma {:induction false} BootstrapTakesOtherSide(base: seq<Line>, hunks: seq<MergeHunk>, side: MergeSide)
    requires HunksFit(hunks, base, 0)
    requires forall h | h in hunks :: (if side == Incoming then h.incomingLines else h.currentLines) == h.baseLines
    ensures ResultFrom(base, hunks, 0, Bootstrap)
         == ResultFrom(base, hunks, 0, Always(if side == Incoming then ChooseCurrent else ChooseIncoming))
  {
    SameContributions(base, hunks, 0, Bootstrap, Always(if side == Incoming then ChooseCurrent else ChooseIncoming));
  }

  /** An incoming side equal to the base merges to current. */
  lemma {:induction false} UnchangedIncomingGivesCurrent(base: string, current: string)
    ensures Result(base, base, current, Bootstrap) == SplitLines(current)
  {
    var model := MergeOf(base, base, current);
    UnchangedTextKeepsBase(base, base, current, Incoming);
    MergeHunksFit(base, base, current);
    BootstrapTakesOtherSide(model.baseLines, model.hunks, Incoming);
    ChoosingOneSideRebuildsIt(base, base, current);
  }

  /** A current side equal to the base merges to incoming. */
  lemma {:induction false} UnchangedCurrentGivesIncoming(base: string, incoming: string)
    ensures Result(base, incoming, base, Bootstrap) == SplitLines(incoming)
  {
    var model := MergeOf(base, incoming, base);
    UnchangedTextKeepsBase(base, incoming, base, Current);
    MergeHunksFit(base, incoming, base);
    BootstrapTakesOtherSide(model.baseLines, model.hunks, Current);
    ChoosingOneSideRebuildsIt(base, incoming, base);
  }

  // ----- Swapping the sides -----

  type Span = (nat, nat)

  function SpanOf(x: TaggedChange): Span { (x.Start(), x.End()) }

  predicate SpanNotAfter(x: Span, y: Span) {
    x.0 < y.0 || (x.0 == y.0 && x.1 <= y.1)
  }

  function Spans(all: seq<TaggedChange>): (spans: seq<Span>)
    ensures |spans| == |all|
    ensures forall k | 0 <= k < |all| :: spans[k] == SpanOf(all[k])
  {
    if all == [] then [] else [SpanOf(all[0])] + Spans(all[1..])
  }

  lemma {:induction false} SpansConcat(a: seq<TaggedChange>, b: seq<TaggedChange>)
    ensures Spans(a + b) == Spans(a) + Spans(b)
  {
  }

  lemma {:induction false} InsertSpans(x: TaggedChange, all: seq<TaggedChange>)
    ensures multiset(Spans(Insert(x, all, NotAfter))) == multiset([SpanOf(x)]) + multiset(Spans(all))
  {
    if all == [] || NotAfter(x, all[0]) {
      assert Spans([x] + all) == [SpanOf(x)] + Spans(all);
    } else {
      var rest := Insert(x, all[1..], NotAfter);
      InsertSpans(x, all[1..]);
      assert Spans([all[0]] + rest) == [SpanOf(all[0])] + Spans(rest);
      assert Spans(all) == [SpanOf(all[0])] + Spans(all[1..]);
    }
  }

  lemma {:induction false} SortSpans(all: seq<TaggedChange>)
    ensures multiset(Spans(SortBy(all, NotAfter))) == multiset(Spans(all))
  {
    if all != [] {
      SortSpans(all[1..]);
      InsertSpans(all[0], SortBy(all[1..], NotAfter));
      assert Spans(all) == [SpanOf(all[0])] + Spans(all[1..]);
    }
  }

  lemma {:induction false} TagSpans(changes: seq<SideChange>, x: MergeSide, y: MergeSide)
    ensures Spans(TagAll(changes, x)) == Spans(TagAll(changes, y))
  {
  }

  lemma {:induction false} SpanOrderIsTotal()
    ensures TotalOrder(SpanNotAfter)
  {
  }

  lemma {:induction false} SortedSpansUnique(xs: seq<Span>, ys: seq<Span>)
    requires Sorted(xs, SpanNotAfter) && Sorted(ys, SpanNotAfter) && multiset(xs) == multiset(ys)
    ensures xs == ys
  {
    SpanOrderIsTotal();
    ElementsDecideOrder(xs, ys, SpanNotAfter);
  }

  /** Swapping the sides does not change the sequence of changed intervals. */
  lemma {:induction false} SwapKeepsSpans(incoming: seq<SideChange>, current: seq<SideChange>)
    ensures Spans(InOrder(incoming, current)) == Spans(InOrder(current, incoming))
  {
    SortedSpans(incoming, current);
    SortedSpans(current, incoming);
    SpansMultiset(incoming, current);
    SpansMultiset(current, incoming);
    TagSpans(incoming, Incoming, Current);
    TagSpans(current, Incoming, Current);
    SortedSpansUnique(Spans(InOrder(incoming, current)), Spans(InOrder(current, incoming)));
  }

  lemma {:induction false} SortedSpans(incoming: seq<SideChange>, current: seq<SideChange>)
    ensures Sorted(Spans(InOrder(incoming, current)), SpanNotAfter)
  {
    NotAfterIsPreorder();
    SortBySorts(TagAll(incoming, Incoming) + TagAll(current, Current), NotAfter);
    var all := InOrder(incoming, current);
    forall i, k | 0 <= i < k < |all| ensures SpanNotAfter(Spans(all)[i], Spans(all)[k]) {
      assert NotAfter(all[i], all[k]);
    }
  }

  lemma {:induction false} SpansMultiset(incoming: seq<SideChange>, current: seq<SideChange>)
    ensures multiset(Spans(InOrder(incoming, current)))
         == multiset(Spans(TagAll(incoming, Incoming))) + multiset(Spans(TagAll(current, Current)))
  {
    var a, b := TagAll(incoming, Incoming), TagAll(current, Current);
    SortSpans(a + b);
    SpansConcat(a, b);
  }

  lemma {:induction false} SpansSlice(a: seq<TaggedChange>, b: seq<TaggedChange>, x: TaggedChange, y: TaggedChange)
    requires Spans(a) == Spans(b) && SpanOf(x) == SpanOf(y)
    ensures Spans(a + [x]) == Spans(b + [y])
  {
    SpansConcat(a, [x]);
    SpansConcat(b, [y]);
  }

  /** Groups that cover the same intervals, one by one. */
  ghost predicate SameShapes(groups: seq<seq<TaggedChange>>, others: seq<seq<TaggedChange>>)
    decreases |groups|
  {
    && |groups| == |others|
    && (groups != [] ==> Spans(groups[0]) == Spans(others[0]) && SameShapes(groups[1..], others[1..]))
  }

  lemma {:induction false} SameShapesCons(g: seq<TaggedChange>, h: seq<TaggedChange>,
                                          groups: seq<seq<TaggedChange>>, others: seq<seq<TaggedChange>>)
    requires Spans(g) == Spans(h) && SameShapes(groups, others)
    ensures SameShapes([g] + groups, [h] + others)
  {
    assert ([g] + groups)[1..] == groups && ([h] + others)[1..] == others;
  }

  /** The sweep looks only at intervals. */
  lemma {:induction false} SweepBySpans(all: seq<TaggedChange>, other: seq<TaggedChange>, i: nat,
                                        group: seq<TaggedChange>, otherGroup: seq<TaggedChange>, maxEnd: nat)
    requires Spans(all) == Spans(other) && i <= |all| && Spans(group) == Spans(otherGroup)
    ensures SameShapes(Sweep(all, i, group, maxEnd), Sweep(other, i, otherGroup, maxEnd))
    decreases |all| - i
  {
    if i == |all| {
      SameShapesCons(group, otherGroup, [], []);
      assert [group] + [] == [group] && [otherGroup] + [] == [otherGroup];
    } else {
      assert SpanOf(all[i]) == Spans(all)[i] == Spans(other)[i] == SpanOf(other[i]);
      hide SameShapes, Spans;
      if group == [] || all[i].Start() <= maxEnd {
        SpansSlice(group, otherGroup, all[i], other[i]);
        SweepBySpans(all, other, i + 1, group + [all[i]], otherGroup + [other[i]], Max(maxEnd, all[i].End()));
      } else {
        SpansSlice([], [], all[i], other[i]);
        assert [] + [all[i]] == [all[i]] && [] + [other[i]] == [other[i]];
        SweepBySpans(all, other, i + 1, [all[i]], [other[i]], Max(0, all[i].End()));
        SameShapesCons(group, otherGroup, Sweep(all, i + 1, [all[i]], Max(0, all[i].End())),
                       Sweep(other, i + 1, [other[i]], Max(0, other[i].End())));
      }
    }
  }

  lemma {:induction false} SameSpansSameHull(a: seq<TaggedChange>, b: seq<TaggedChange>)
    requires Spans(a) == Spans(b)
    ensures MaxEnd(a) == MaxEnd(b)
    ensures a != [] ==> MinStart(a) == MinStart(b)
    decreases |a|
  {
    if a != [] {
      var n := |a| - 1;
      assert SpanOf(a[n]) == Spans(a)[n] == Spans(b)[n] == SpanOf(b[n]);
      assert Spans(a[..n]) == Spans(a)[..n] == Spans(b)[..n] == Spans(b[..n]);
      SameSpansSameHull(a[..n], b[..n]);
    }
  }

  lemma {:induction false} UniqueSplit(xs: seq<SideChange>, ys: seq<SideChange>, us: seq<SideChange>,
                                       vs: seq<SideChange>, m: nat)
    requires xs + ys == us + vs
    requires forall k | 0 <= k < |xs| :: xs[k].baseStart <= m
    requires forall k | 0 <= k < |us| :: us[k].baseStart <= m
    requires forall k | 0 <= k < |ys| :: m < ys[k].baseStart
    requires forall k | 0 <= k < |vs| :: m < vs[k].baseStart
    ensures xs == us && ys == vs
  {
    var all, k := xs + ys, if |xs| < |us| then |xs| else |us|;
    assert k < |all| ==> (all[k].baseStart <= m <==> k < |xs|) && (all[k].baseStart <= m <==> k < |us|);
    assert (xs + ys)[..|xs|] == xs && (us + vs)[..|us|] == us;
    assert (xs + ys)[|xs|..] == ys && (us + vs)[|us|..] == vs;
  }

  /** One side of a group reaches no further than the group, and the rest starts past it. */
  lemma {:induction false} SidesSplitAtGroup(groups: seq<seq<TaggedChange>>, reach: int, side: MergeSide)
    requires groups != [] && Apart(groups, reach) && Ordered(Flatten(groups))
    ensures OfSide(Flatten(groups), side) == OfSide(groups[0], side) + OfSide(Flatten(groups[1..]), side)
    ensures forall k | 0 <= k < |OfSide(groups[0], side)| :: OfSide(groups[0], side)[k].baseStart <= MaxEnd(groups[0])
    ensures forall k | 0 <= k < |OfSide(Flatten(groups[1..]), side)| ::
      MaxEnd(groups[0]) < OfSide(Flatten(groups[1..]), side)[k].baseStart
  {
    var g, rest := groups[0], Flatten(groups[1..]);
    OfSideConcat(g, rest, side);
    OrderedSuffix(g, rest);
    var xs, ys := OfSide(g, side), OfSide(rest, side);
    forall k | 0 <= k < |xs| ensures xs[k].baseStart <= MaxEnd(g) {
      OfSideMembers(g, side, xs[k]);
      var m :| 0 <= m < |g| && g[m].change == xs[k] && g[m].side == side;
      MaxEndBounds(g, m);
      assert g[m].Start() <= g[m].End();
    }
    forall k | 0 <= k < |ys| ensures MaxEnd(g) < ys[k].baseStart {
      OfSideMembers(rest, side, ys[k]);
      var m :| 0 <= m < |rest| && rest[m].change == ys[k] && rest[m].side == side;
      OrderedPairs(rest, 0, m);
      FlattenStartsWith(groups[1..], MaxEnd(g));
    }
  }

  lemma {:induction false} FlattenStartsWith(groups: seq<seq<TaggedChange>>, reach: int)
    requires Apart(groups, reach) && Flatten(groups) != []
    ensures reach < Flatten(groups)[0].Start()
  {
  }

  /** A hunk with its sides exchanged. */
  function Swapped(h: MergeHunk): MergeHunk {
    var choice := BootstrapOf(h.baseLines, h.currentLines, h.incomingLines);
    h.(incomingLines := h.currentLines, currentLines := h.incomingLines, choice := choice, bootstrapChoice := choice)
  }

  lemma {:induction false} SwappedGroups(base: seq<Line>, groups: seq<seq<TaggedChange>>,
                                         others: seq<seq<TaggedChange>>,
                                         reach: int, otherReach: int, cursor: nat, index: nat)
    requires SameShapes(groups, others)
    requires Apart(groups, reach) && Apart(others, otherReach) && Ordered(Flatten(groups)) && Ordered(Flatten(others))
    requires GroupsFit(groups, base, cursor) && GroupsFit(others, base, cursor)
    requires OfSide(Flatten(groups), Incoming) == OfSide(Flatten(others), Current)
    requires OfSide(Flatten(groups), Current) == OfSide(Flatten(others), Incoming)
    ensures forall g | g in groups + others :: InBase(g, base)
    ensures forall k | 0 <= k < |groups| :: HunksOf(base, others, index)[k] == Swapped(HunksOf(base, groups, index)[k])
    decreases |groups|
  {
    GroupsFitHunks(groups, base, cursor, index);
    GroupsFitHunks(others, base, cursor, index);
    if groups != [] {
      SwapFirst(base, groups, others, reach, otherReach, index);
      OrderedSuffix(groups[0], Flatten(groups[1..]));
      OrderedSuffix(others[0], Flatten(others[1..]));
      SameSpansSameHull(groups[0], others[0]);
      SwappedGroups(base, groups[1..], others[1..], MaxEnd(groups[0]), MaxEnd(others[0]), MaxEnd(groups[0]), index + 1);
    }
  }

  lemma {:induction false} SwapFirst(base: seq<Line>, groups: seq<seq<TaggedChange>>, others: seq<seq<TaggedChange>>,
                                     reach: int, otherReach: int, index: nat)
    requires groups != [] && others != [] && Spans(groups[0]) == Spans(others[0])
    requires Apart(groups, reach) && Apart(others, otherReach) && Ordered(Flatten(groups)) && Ordered(Flatten(others))
    requires InBase(groups[0], base) && InBase(others[0], base)
    requires OfSide(Flatten(groups), Incoming) == OfSide(Flatten(others), Current)
    requires OfSide(Flatten(groups), Current) == OfSide(Flatten(others), Incoming)
    ensures HunkOf(base, others[0], index) == Swapped(HunkOf(base, groups[0], index))
    ensures OfSide(Flatten(groups[1..]), Incoming) == OfSide(Flatten(others[1..]), Current)
    ensures OfSide(Flatten(groups[1..]), Current) == OfSide(Flatten(others[1..]), Incoming)
  {
    SameSpansSameHull(groups[0], others[0]);
    SidesSplitAtGroup(groups, reach, Incoming);
    SidesSplitAtGroup(groups, reach, Current);
    SidesSplitAtGroup(others, otherReach, Incoming);
    SidesSplitAtGroup(others, otherReach, Current);
    UniqueSplit(OfSide(groups[0], Incoming), OfSide(Flatten(groups[1..]), Incoming),
                OfSide(others[0], Current), OfSide(Flatten(others[1..]), Current), MaxEnd(groups[0]));
    UniqueSplit(OfSide(groups[0], Current), OfSide(Flatten(groups[1..]), Current),
                OfSide(others[0], Incoming), OfSide(Flatten(others[1..]), Incoming), MaxEnd(groups[0]));
  }

  /** Merging with the sides exchanged gives the same hunks with their sides exchanged. */
  lemma {:induction false} SwapSwapsHunks(base: string, incoming: string, current: string)
    ensures var (hunks, others) := (MergeOf(base, incoming, current).hunks, MergeOf(base, current, incoming).hunks);
      |hunks| == |others| && forall k | 0 <= k < |hunks| :: others[k] == Swapped(hunks[k])
  {
    var agree := PhantomsAgree(base, incoming, current);
    var lines := SplitLines(base);
    SideOfTextFits(base, incoming, agree);
    SideOfTextFits(base, current, agree);
    var i, c := SideOfText(base, incoming, agree), SideOfText(base, current, agree);
    SwapHunksOfSides(lines, i, c);
  }

  lemma {:induction false} SwapHunksOfSides(base: seq<Line>, i: seq<SideChange>, c: seq<SideChange>)
    requires SideFits(i, base) && SideFits(c, base)
    ensures var (hunks, others) := (SweepHunks(base, i, c), SweepHunks(base, c, i));
      |hunks| == |others| && forall k | 0 <= k < |hunks| :: others[k] == Swapped(hunks[k])
  {
    var all, other := InOrder(i, c), InOrder(c, i);
    SweepFits(base, i, c);
    SweepFits(base, c, i);
    GroupsPartition(all);
    GroupsPartition(other);
    InOrderIsOrdered(i, c, base);
    InOrderIsOrdered(c, i, base);
    InOrderKeepsSides(i, c, base);
    InOrderKeepsSides(c, i, base);
    SwapKeepsSpans(i, c);
    SweepBySpans(all, other, 0, [], [], 0);
    SwappedGroups(base, Groups(all), Groups(other), -1, -1, 0, 0);
  }

  lemma {:induction false} SwappedResult(base: seq<Line>, hunks: seq<MergeHunk>, others: seq<MergeHunk>, cursor: nat)
    requires HunksFit(hunks, base, cursor) && HunksFit(others, base, cursor)
    requires |hunks| == |others| && forall k | 0 <= k < |hunks| :: others[k] == Swapped(hunks[k])
    ensures ResultFrom(base, hunks, cursor, Bootstrap) == ResultFrom(base, others, cursor, Bootstrap)
    decreases |hunks|
  {
    if hunks != [] {
      SwappedResult(base, hunks[1..], others[1..], hunks[0].baseEnd);
    }
  }

  /** Exchanging incoming and current never changes the bootstrap result. */
  lemma {:induction false} SwapKeepsBootstrapResult(base: string, incoming: string, current: string)
    ensures Result(base, incoming, current, Bootstrap) == Result(base, current, incoming, Bootstrap)
  {
    SwapSwapsHunks(base, incoming, current);
    MergeHunksFit(base, incoming, current);
    MergeHunksFit(base, current, incoming);
    SwappedResult(SplitLines(base), MergeOf(base, incoming, current).hunks, MergeOf(base, current, incoming).hunks, 0);
  }

  /** Equal sides merge to that side. */
  lemma {:induction false} EqualSidesGiveThatSide(base: string, side: string)
    ensures Result(base, side, side, Bootstrap) == SplitLines(side)
  {
    hide MergeOf;
    var model := MergeOf(base, side, side);
    SwapSwapsHunks(base, side, side);
    MergeHunksFit(base, side, side);
    forall h | h in model.hunks ensures h.incomingLines == h.currentLines {
      var k :| 0 <= k < |model.hunks| && model.hunks[k] == h;
      assert h == Swapped(h);
    }
    SameContributions(model.baseLines, model.hunks, 0, Bootstrap, Always(ChooseIncoming));
    ChoosingOneSideRebuildsIt(base, side, side);
  }

  // ----- Hunks -----

  lemma {:induction false} HunksApartFrom(base: seq<Line>, groups: seq<seq<TaggedChange>>, reach: int, cursor: nat,
                                          index: nat, k: nat)
    requires Apart(groups, reach) && GroupsFit(groups, base, cursor) && Ordered(Flatten(groups)) && k < |groups|
    ensures forall g | g in groups :: InBase(g, base)
    ensures var hunks := HunksOf(base, groups, index);
      && hunks[k] == HunkOf(base, groups[k], index + k)
      && (k + 1 < |groups| ==> hunks[k].baseEnd < hunks[k + 1].baseStart)
    decreases k
  {
    GroupsFitHunks(groups, base, cursor, index);
    OrderedSuffix(groups[0], Flatten(groups[1..]));
    if k > 0 {
      HunksApartFrom(base, groups[1..], MaxEnd(groups[0]), MaxEnd(groups[0]), index + 1, k - 1);
    } else if |groups| > 1 {
      OrderedSuffix(groups[1], Flatten(groups[2..]));
      assert groups[1..][1..] == groups[2..];
      MinStartIsFirst(groups[1]);
    }
  }

  /** All changes of a merge, in order. */
  function ChangesOfMerge(base: string, incoming: string, current: string): seq<TaggedChange> {
    var agree := PhantomsAgree(base, incoming, current);
    InOrder(SideOfText(base, incoming, agree), SideOfText(base, current, agree))
  }

  /** Hunks are numbered in order, and the base line at which one ends, which neither side changed,
      separates it from the next. */
  lemma {:induction false} HunksAreApart(base: string, incoming: string, current: string, k: nat)
    requires k < |MergeOf(base, incoming, current).hunks|
    ensures var hunks := MergeOf(base, incoming, current).hunks;
      && hunks[k].index == k
      && (k + 1 < |hunks| ==> hunks[k].baseEnd < hunks[k + 1].baseStart)
      && (forall change | change in ChangesOfMerge(base, incoming, current) :: LeavesLine(change, hunks[k].baseEnd))
  {
    var agree := PhantomsAgree(base, incoming, current);
    SideOfTextFits(base, incoming, agree);
    SideOfTextFits(base, current, agree);
    SweptHunksApart(SplitLines(base), SideOfText(base, incoming, agree), SideOfText(base, current, agree), k);
  }

  lemma {:induction false} SweptHunksApart(base: seq<Line>, i: seq<SideChange>, c: seq<SideChange>, k: nat)
    requires SideFits(i, base) && SideFits(c, base) && k < |SweepHunks(base, i, c)|
    ensures var hunks := SweepHunks(base, i, c);
      && hunks[k].index == k
      && (k + 1 < |hunks| ==> hunks[k].baseEnd < hunks[k + 1].baseStart)
      && (forall change | change in InOrder(i, c) :: LeavesLine(change, hunks[k].baseEnd))
  {
    var groups := Groups(InOrder(i, c));
    SweepFits(base, i, c);
    GroupsPartition(InOrder(i, c));
    InOrderIsOrdered(i, c, base);
    HunksApartFrom(base, groups, -1, 0, 0, k);
    LineAfterGroup(groups, -1, k);
    forall change | change in InOrder(i, c) ensures LeavesLine(change, MaxEnd(groups[k])) {
      var g, m := InSomeGroup(groups, change);
    }
  }

  /** The hunks are the connected components of the touch relation over both sides' changes: every
      change is in a group, no two changes of different groups touch, and no group can be divided
      without separating two changes that touch. */
  lemma {:induction false} HunksAreComponents(base: seq<Line>, i: seq<SideChange>, c: seq<SideChange>)
    requires SideFits(i, base) && SideFits(c, base)
    ensures var groups := Groups(InOrder(i, c));
      && Flatten(groups) == InOrder(i, c)
      && (forall x, y, m, n | 0 <= x < y < |groups| && 0 <= m < |groups[x]| && 0 <= n < |groups[y]| ::
            !Touch(groups[x][m], groups[y][n]))
      && (forall g, part: set<nat>, a: nat, b: nat | g in groups && a < |g| && b < |g| && a in part && b !in part ::
            exists m: nat, n: nat | m < |g| && n < |g| && m in part && n !in part :: Touch(g[m], g[n]))
  {
    var all := InOrder(i, c);
    var groups := Groups(all);
    GroupsPartition(all);
    InOrderIsOrdered(i, c, base);
    forall x, y, m, n | 0 <= x < y < |groups| && 0 <= m < |groups[x]| && 0 <= n < |groups[y]|
      ensures !Touch(groups[x][m], groups[y][n])
    {
      GroupsDoNotTouch(groups, -1, x, y, m, n);
    }
    forall g, part: set<nat>, a: nat, b: nat | g in groups && a < |g| && b < |g| && a in part && b !in part
      ensures exists m: nat, n: nat | m < |g| && n < |g| && m in part && n !in part :: Touch(g[m], g[n])
    {
      GroupIsOrdered(groups, g);
      var m, n := GroupConnected(g, part, a, b);
    }
  }

  lemma {:induction false} GroupIsOrdered(groups: seq<seq<TaggedChange>>, g: seq<TaggedChange>)
    requires Ordered(Flatten(groups)) && g in groups
    ensures Ordered(g)
    decreases |groups|
  {
    OrderedSuffix(groups[0], Flatten(groups[1..]));
    if g != groups[0] {
      GroupIsOrdered(groups[1..], g);
    }
  }

}
