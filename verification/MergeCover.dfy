/** Which base lines the hunks of a merge cover: exactly those that the line diff to one of the sides does not keep. */
module MergeCover {
  import opened Basics
  import opened Text
  import opened CommonSubsequence
  import opened ExactAlignment
  import opened LineDiff
  import opened Sorting
  import opened SideChanges
  import opened SideChangeLaws
  import opened MergeGroups
  import opened MergeModel
  import opened MergeLaws

  /** A change replaces base line `b`. */
  ghost predicate Replaces(changes: seq<SideChange>, b: nat) {
    exists x | 0 <= x < |changes| :: changes[x].baseStart <= b < changes[x].baseEnd
  }

  ghost predicate InHunk(hunks: seq<MergeHunk>, b: nat) {
    exists k | 0 <= k < |hunks| :: hunks[k].baseStart <= b < hunks[k].baseEnd
  }

  /** The diff from `base` to `side` pairs base line `b`. */
  ghost predicate Keeps(base: seq<Line>, side: seq<Line>, b: nat) {
    exists j: nat :: (b, j) in EqualPositions(LineDiffOps(base, side, false), 0, 0)
  }

  // ----- From a diff to its changes -----

  lemma {:induction false} InRun(i: nat, end: nat, j: nat, b: nat)
    requires i <= end
    ensures (exists k: nat :: (b, k) in Run(i, end, j)) <==> i <= b < end
  {
    if i <= b < end {
      assert Run(i, end, j)[b - i] == (b, j + (b - i));
    }
  }

  lemma {:induction false} ReplacesCons(change: SideChange, later: seq<SideChange>, b: nat)
    ensures Replaces([change] + later, b) <==> change.baseStart <= b < change.baseEnd || Replaces(later, b)
  {
    var all := [change] + later;
    assert all[0] == change;
    if Replaces(later, b) {
      var x :| 0 <= x < |later| && later[x].baseStart <= b < later[x].baseEnd;
      assert all[x + 1] == later[x];
    }
    if Replaces(all, b) {
      var x :| 0 <= x < |all| && all[x].baseStart <= b < all[x].baseEnd;
      assert x > 0 ==> later[x - 1] == all[x];
    }
  }

  lemma {:induction false} ReplacesInside(changes: seq<SideChange>, i: nat, end: nat, b: nat)
    requires Fit(changes, i, end) && !(i <= b < end)
    ensures !Replaces(changes, b)
  {
    FitBounds(changes, i, end);
  }

  /** What the changes leave untouched is what none of them replaces. */
  lemma {:induction false} UntouchedIffNotReplaced(changes: seq<SideChange>, i: nat, end: nat, j: nat, b: nat)
    requires Fit(changes, i, end) && i <= b < end
    ensures (exists k: nat :: (b, k) in Untouched(changes, i, end, j)) <==> !Replaces(changes, b)
    decreases |changes|
  {
    hide Run, Replaces;
    if changes == [] {
      InRun(i, end, j, b);
      NothingReplaced(b);
    } else {
      var c, later := changes[0], changes[1..];
      var next := j + c.baseStart - i + |c.lines|;
      var front, back := Run(i, c.baseStart, j), Untouched(later, c.baseEnd, end, next);
      InRun(i, c.baseStart, j, b);
      assert changes == [c] + later;
      ReplacesCons(c, later, b);
      InEither(front, back, b);
      if b < c.baseEnd {
        ReplacesInside(later, c.baseEnd, end, b);
        NotUntouched(later, c.baseEnd, end, next, b);
      } else {
        UntouchedIffNotReplaced(later, c.baseEnd, end, next, b);
      }
    }
  }

  lemma {:induction false} NothingReplaced(b: nat)
    ensures !Replaces([], b)
  {
  }

  lemma {:induction false} InEither(front: seq<Pair>, back: seq<Pair>, b: nat)
    ensures (exists k: nat :: (b, k) in front + back)
       <==> (exists k: nat :: (b, k) in front) || (exists k: nat :: (b, k) in back)
  {
    if k: nat :| (b, k) in front {
      assert (b, k) in front + back;
    }
    if k: nat :| (b, k) in back {
      assert (b, k) in front + back;
    }
  }

  lemma {:induction false} NotUntouched(changes: seq<SideChange>, i: nat, end: nat, j: nat, b: nat)
    requires Fit(changes, i, end) && b < i
    ensures forall k: nat :: (b, k) !in Untouched(changes, i, end, j)
    decreases |changes|
  {
    if changes != [] {
      NotUntouched(changes[1..], changes[0].baseEnd, end, j + changes[0].baseStart - i + |changes[0].lines|, b);
    }
  }

  lemma {:induction false} KeptIffNotReplaced(base: seq<Line>, side: seq<Line>, b: nat)
    ensures Replaces(ChangesOf(base, side), b) <==> b < |base| && !Keeps(base, side, b)
  {
    hide LineDiffOps, ChangesOf, Untouched, EqualPositions, Replaces, Fit;
    ChangesLeaveWhatTheDiffPairs(base, side);
    if b < |base| {
      UntouchedIffNotReplaced(ChangesOf(base, side), 0, |base|, 0, b);
    } else {
      ReplacesInside(ChangesOf(base, side), 0, |base|, b);
    }
  }

  // ----- From the changes to the hunks -----

  /** A group covers no line between its changes. */
  lemma {:induction false} GroupReplaces(group: seq<TaggedChange>, b: nat) returns (x: nat)
    requires Ordered(group) && Chained(group) && group[0].Start() <= b < MaxEnd(group)
    ensures x < |group| && group[x].Start() <= b < group[x].End()
  {
    var n := |group| - 1;
    if n > 0 && b < MaxEnd(group[..n]) {
      assert group == group[..n] + [group[n]];
      OrderedSuffix(group[..n], [group[n]]);
      x := GroupReplaces(group[..n], b);
    } else {
      x := n;
    }
  }

  lemma {:induction false} SameMembers(i: seq<SideChange>, c: seq<SideChange>, t: TaggedChange)
    ensures t in InOrder(i, c) <==> t in TagAll(i, Incoming) || t in TagAll(c, Current)
  {
    var tagged := TagAll(i, Incoming) + TagAll(c, Current);
    NotAfterIsPreorder();
    SortBySorts(tagged, NotAfter);
    PermutationKeepsElements(InOrder(i, c), tagged);
    PermutationKeepsElements(tagged, InOrder(i, c));
  }

  lemma {:induction false} ReplacedByTagged(changes: seq<SideChange>, side: MergeSide, b: nat)
    ensures Replaces(changes, b) <==> exists t | t in TagAll(changes, side) :: t.Start() <= b < t.End()
  {
    var tagged := TagAll(changes, side);
    if Replaces(changes, b) {
      var x :| 0 <= x < |changes| && changes[x].baseStart <= b < changes[x].baseEnd;
      var t := Tagged(side, changes[x]);
      assert tagged[x] == t && t in tagged && t.Start() <= b < t.End();
    }
    if t :| t in tagged && t.Start() <= b < t.End() {
      var x :| 0 <= x < |tagged| && tagged[x] == t;
      assert changes[x] == t.change;
    }
  }

  lemma {:induction false} InOrderMembers(i: seq<SideChange>, c: seq<SideChange>, b: nat)
    ensures (exists t | t in InOrder(i, c) :: t.Start() <= b < t.End()) <==> Replaces(i, b) || Replaces(c, b)
  {
    hide InOrder, Replaces, TagAll;
    ReplacedByTagged(i, Incoming, b);
    ReplacedByTagged(c, Current, b);
    if t :| t in InOrder(i, c) && t.Start() <= b < t.End() {
      SameMembers(i, c, t);
    }
    if t :| (t in TagAll(i, Incoming) || t in TagAll(c, Current)) && t.Start() <= b < t.End() {
      SameMembers(i, c, t);
      assert t in InOrder(i, c);
    }
  }

  /** Hunk `k` runs from where its group starts to where it reaches. */
  lemma {:induction false} HunkSpans(base: seq<Line>, i: seq<SideChange>, c: seq<SideChange>, k: nat)
    requires SideFits(i, base) && SideFits(c, base) && k < |SweepHunks(base, i, c)|
    ensures var groups, hunk := Groups(InOrder(i, c)), SweepHunks(base, i, c)[k];
            && k < |groups| && Ordered(groups[k]) && Chained(groups[k])
            && hunk.baseStart == groups[k][0].Start() && hunk.baseEnd == MaxEnd(groups[k])
  {
    hide InOrder, Groups, HunkOf, MinStart, MaxEnd, Ordered;
    var groups := Groups(InOrder(i, c));
    SweepFits(base, i, c);
    GroupsPartition(InOrder(i, c));
    InOrderIsOrdered(i, c, base);
    HunksApartFrom(base, groups, -1, 0, 0, k);
    HunkBounds(base, groups[k], k);
    GroupIsOrdered(groups, groups[k]);
    MinStartIsFirst(groups[k]);
  }

  lemma {:induction false} HunkIsReplaced(base: seq<Line>, i: seq<SideChange>, c: seq<SideChange>, b: nat)
    requires SideFits(i, base) && SideFits(c, base) && InHunk(SweepHunks(base, i, c), b)
    ensures exists t | t in InOrder(i, c) :: t.Start() <= b < t.End()
  {
    hide SweepHunks, InOrder, Groups, SideFits, Ordered, Chained, MaxEnd;
    var groups := Groups(InOrder(i, c));
    var k: nat :| k < |SweepHunks(base, i, c)| && SweepHunks(base, i, c)[k].baseStart <= b
        < SweepHunks(base, i, c)[k].baseEnd;
    HunkSpans(base, i, c, k);
    var x := GroupReplaces(groups[k], b);
    InFlatten(groups, k, x);
    GroupsPartition(InOrder(i, c));
    assert groups[k][x] in InOrder(i, c);
  }

  lemma {:induction false} AsManyHunks(base: seq<Line>, i: seq<SideChange>, c: seq<SideChange>)
    requires SideFits(i, base) && SideFits(c, base)
    ensures |SweepHunks(base, i, c)| == |Groups(InOrder(i, c))|
  {
    hide InOrder, Groups, HunkOf;
    SweepFits(base, i, c);
  }

  lemma {:induction false} ReplacedIsInHunk(base: seq<Line>, i: seq<SideChange>, c: seq<SideChange>, b: nat,
                                            t: TaggedChange)
    requires SideFits(i, base) && SideFits(c, base) && t in InOrder(i, c) && t.Start() <= b < t.End()
    ensures InHunk(SweepHunks(base, i, c), b)
  {
    hide SweepHunks, InOrder, Groups, SideFits, Ordered, Chained, MaxEnd;
    var groups := Groups(InOrder(i, c));
    GroupsPartition(InOrder(i, c));
    AsManyHunks(base, i, c);
    var g, m := InSomeGroup(groups, t);
    HunkSpans(base, i, c, g);
    MaxEndBounds(groups[g], m);
    OrderedPairs(groups[g], 0, m);
    assert SweepHunks(base, i, c)[g].baseStart <= b < SweepHunks(base, i, c)[g].baseEnd;
  }

  /** A base line is in a hunk exactly when a change of either side replaces it. */
  lemma {:induction false} HunksReplace(base: seq<Line>, i: seq<SideChange>, c: seq<SideChange>, b: nat)
    requires SideFits(i, base) && SideFits(c, base)
    ensures InHunk(SweepHunks(base, i, c), b) <==> Replaces(i, b) || Replaces(c, b)
  {
    hide SweepHunks, InOrder, SideFits, InHunk, Replaces;
    InOrderMembers(i, c, b);
    if InHunk(SweepHunks(base, i, c), b) {
      HunkIsReplaced(base, i, c, b);
    } else if t :| t in InOrder(i, c) && t.Start() <= b < t.End() {
      ReplacedIsInHunk(base, i, c, b, t);
    }
  }

  lemma {:induction false} HunkBounds(base: seq<Line>, group: seq<TaggedChange>, index: nat)
    requires InBase(group, base)
    ensures HunkOf(base, group, index).baseStart == MinStart(group)
            && HunkOf(base, group, index).baseEnd == MaxEnd(group)
  {
    hide SideLines, SliceBase;
  }

  lemma {:induction false} InFlatten(groups: seq<seq<TaggedChange>>, k: nat, x: nat)
    requires k < |groups| && x < |groups[k]|
    ensures groups[k][x] in Flatten(groups)
  {
    if k > 0 {
      InFlatten(groups[1..], k - 1, x);
    }
  }

  // ----- The merge of three texts -----

  /** How many lines are diffed: the phantom is not where all three texts have one. */
  ghost function DiffedLines(text: string, base: string, incoming: string, current: string): seq<Line> {
    var lines := SplitLines(text);
    if EndsInNewline(base) && EndsInNewline(incoming) && EndsInNewline(current) then lines[..|lines| - 1] else lines
  }

  /** The hunks of a merge cover a base line exactly when the diff to the incoming or to the current text does not keep
      it; the phantom that all three share is in no hunk. */
  lemma {:induction false} HunksCoverWhatChanged(base: string, incoming: string, current: string, b: nat)
    ensures var lines := DiffedLines(base, base, incoming, current);
            var kept := && Keeps(lines, DiffedLines(incoming, base, incoming, current), b)
                        && Keeps(lines, DiffedLines(current, base, incoming, current), b);
            InHunk(MergeOf(base, incoming, current).hunks, b) <==> b < |lines| && !kept
  {
    var agree := PhantomsAgree(base, incoming, current);
    SideOfTextFits(base, incoming, agree);
    SideOfTextFits(base, current, agree);
    var i, c := SideOfText(base, incoming, agree), SideOfText(base, current, agree);
    hide SideFits, SweepHunks, ChangesOf, SplitLines, InHunk, Keeps, Replaces, EndsInNewline;
    HunksReplace(SplitLines(base), i, c, b);
    KeptIffNotReplaced(DiffedLines(base, base, incoming, current), DiffedLines(incoming, base, incoming, current), b);
    KeptIffNotReplaced(DiffedLines(base, base, incoming, current), DiffedLines(current, base, incoming, current), b);
  }
}
