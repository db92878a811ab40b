/** The three-way merge: hunks with each side's lines, choices per hunk, and the result. */
module MergeModel {
  import opened Text
  import opened Sorting
  import opened SideChanges
  import opened MergeGroups

  datatype MergeChoice =
    | ChooseBase | ChooseIncoming | ChooseCurrent
    | ChooseBoth | ChooseBothCurrentFirst | ChooseBothIncomingFirst

  datatype MergeHunk = MergeHunk(
    index: nat,
    baseStart: nat,
    baseEnd: nat,
    baseLines: seq<Line>,
    incomingLines: seq<Line>,
    currentLines: seq<Line>,
    conflict: bool,
    choice: MergeChoice,
    bootstrapChoice: MergeChoice)

  datatype Model = Model(
    baseLines: seq<Line>,
    incomingLines: seq<Line>,
    currentLines: seq<Line>,
    hunks: seq<MergeHunk>)

  // ----- Choices -----

  function BootstrapOf(base: seq<Line>, incoming: seq<Line>, current: seq<Line>): MergeChoice {
    if incoming == current then ChooseIncoming
    else if incoming == base then ChooseCurrent
    else if current == base then ChooseIncoming
    else ChooseBase
  }

  function BootstrapMergeChoice(hunk: MergeHunk): MergeChoice {
    BootstrapOf(hunk.baseLines, hunk.incomingLines, hunk.currentLines)
  }

  /** The lines a hunk contributes under a choice. */
  function MergeChoiceLines(hunk: MergeHunk, choice: MergeChoice): seq<Line> {
    match choice
    case ChooseBase => hunk.baseLines
    case ChooseIncoming => hunk.incomingLines
    case ChooseCurrent => hunk.currentLines
    case ChooseBothIncomingFirst =>
      if hunk.incomingLines == hunk.currentLines then hunk.incomingLines
      else if hunk.incomingLines == hunk.baseLines then hunk.currentLines
      else if hunk.currentLines == hunk.baseLines then hunk.incomingLines
      else hunk.incomingLines + hunk.currentLines
    case _ =>
      if hunk.incomingLines == hunk.currentLines then hunk.currentLines
      else if hunk.incomingLines == hunk.baseLines then hunk.currentLines
      else if hunk.currentLines == hunk.baseLines then hunk.incomingLines
      else hunk.currentLines + hunk.incomingLines
  }

  // ----- Building the hunks -----

  predicate ChangeNotAfter(x: SideChange, y: SideChange) {
    if x.baseStart != y.baseStart then x.baseStart < y.baseStart else x.baseEnd <= y.baseEnd
  }

  /** One side's lines for the slice `[start, end)` of the base. */
  function SideLines(base: seq<Line>, start: nat, end: nat, changes: seq<SideChange>): seq<Line>
    requires start <= end <= |base|
  {
    Apply(base, start, end, SortBy(changes, ChangeNotAfter))
  }

  function SliceBase(base: seq<Line>, start: nat, end: nat): seq<Line> {
    var safeStart := Clamp(start, 0, |base|);
    base[safeStart..Clamp(end, safeStart, |base|)]
  }

  function HunkFrom(base: seq<Line>, start: nat, end: nat, incoming: seq<SideChange>, current: seq<SideChange>,
                    index: nat): MergeHunk
    requires start <= end <= |base|
  {
    var baseLines := SliceBase(base, start, end);
    var incomingLines := SideLines(base, start, end, incoming);
    var currentLines := SideLines(base, start, end, current);
    var choice := BootstrapOf(baseLines, incomingLines, currentLines);
    MergeHunk(index, start, end, baseLines, incomingLines, currentLines,
              incomingLines != currentLines && incomingLines != baseLines && currentLines != baseLines,
              choice, choice)
  }

  /** A group's changes stay inside the base. */
  ghost predicate InBase(group: seq<TaggedChange>, base: seq<Line>) {
    group != [] && MinStart(group) <= MaxEnd(group) <= |base|
  }

  function HunkOf(base: seq<Line>, group: seq<TaggedChange>, index: nat): MergeHunk
    requires InBase(group, base)
  {
    HunkFrom(base, MinStart(group), MaxEnd(group), OfSide(group, Incoming), OfSide(group, Current), index)
  }

  function HunksOf(base: seq<Line>, groups: seq<seq<TaggedChange>>, index: nat): (hunks: seq<MergeHunk>)
    requires forall g | g in groups :: InBase(g, base)
    ensures |hunks| == |groups|
    decreases |groups|
  {
    if groups == [] then []
    else [HunkOf(base, groups[0], index)] + HunksOf(base, groups[1..], index + 1)
  }

  // ----- The result -----

  /** How a walk over the hunks chooses. */
  datatype Policy = Recorded | Bootstrap | Always(choice: MergeChoice)

  function Choose(hunk: MergeHunk, policy: Policy): MergeChoice {
    match policy
    case Recorded => hunk.choice
    case Bootstrap => BootstrapMergeChoice(hunk)
    case Always(choice) => choice
  }

  /** Hunks in order inside the base, from `cursor` on. */
  ghost predicate HunksFit(hunks: seq<MergeHunk>, base: seq<Line>, cursor: nat)
    decreases |hunks|
  {
    if hunks == [] then cursor <= |base|
    else cursor <= hunks[0].baseStart <= hunks[0].baseEnd <= |base| && HunksFit(hunks[1..], base, hunks[0].baseEnd)
  }

  function ResultFrom(base: seq<Line>, hunks: seq<MergeHunk>, cursor: nat, policy: Policy): seq<Line>
    requires HunksFit(hunks, base, cursor)
    decreases |hunks|
  {
    if hunks == [] then base[cursor..]
    else
      base[cursor..hunks[0].baseStart] + MergeChoiceLines(hunks[0], Choose(hunks[0], policy))
      + ResultFrom(base, hunks[1..], hunks[0].baseEnd, policy)
  }

  /** The result as the lines of a file: an empty one is a single empty line. */
  function ResultLines(model: Model, policy: Policy): (lines: seq<Line>)
    requires HunksFit(model.hunks, model.baseLines, 0)
    ensures lines != []
  {
    var result := ResultFrom(model.baseLines, model.hunks, 0, policy);
    if result == [] then [""] else result
  }

  // ----- Each side's lines rebuild the side -----

  /** Groups in order inside the base, each side's changes fitting their group's interval. */
  ghost predicate GroupsFit(groups: seq<seq<TaggedChange>>, base: seq<Line>, cursor: nat)
    decreases |groups|
  {
    if groups == [] then cursor <= |base|
    else
      && InBase(groups[0], base)
      && cursor <= MinStart(groups[0])
      && Fit(OfSide(groups[0], Incoming), MinStart(groups[0]), MaxEnd(groups[0]))
      && Fit(OfSide(groups[0], Current), MinStart(groups[0]), MaxEnd(groups[0]))
      && GroupsFit(groups[1..], base, MaxEnd(groups[0]))
  }

  lemma {:induction false} FitIsSorted(changes: seq<SideChange>, cursor: nat, end: nat)
    requires Fit(changes, cursor, end)
    ensures SortBy(changes, ChangeNotAfter) == changes
    decreases |changes|
  {
    if changes != [] {
      FitIsSorted(changes[1..], changes[0].baseEnd, end);
      if |changes| > 1 {
        assert changes[1..][0] == changes[1];
      }
    }
  }

  lemma {:induction false} GroupsFitHunks(groups: seq<seq<TaggedChange>>, base: seq<Line>, cursor: nat, index: nat)
    requires GroupsFit(groups, base, cursor)
    ensures forall g | g in groups :: InBase(g, base)
    ensures HunksFit(HunksOf(base, groups, index), base, cursor)
    decreases |groups|
  {
    if groups != [] {
      GroupsFitHunks(groups[1..], base, MaxEnd(groups[0]), index + 1);
      assert forall g | g in groups :: g == groups[0] || g in groups[1..];
      assert HunksOf(base, groups, index)[1..] == HunksOf(base, groups[1..], index + 1);
    }
  }

  lemma {:induction false} OfSideFits(groups: seq<seq<TaggedChange>>, base: seq<Line>, cursor: nat, side: MergeSide)
    requires GroupsFit(groups, base, cursor)
    ensures Fit(OfSide(Flatten(groups), side), cursor, |base|)
    decreases |groups|
  {
    if groups != [] {
      var g, end := OfSide(groups[0], side), MaxEnd(groups[0]);
      OfSideFits(groups[1..], base, end, side);
      OfSideConcat(groups[0], Flatten(groups[1..]), side);
      FitConcat(g, OfSide(Flatten(groups[1..]), side), MinStart(groups[0]), end, |base|);
      FitEarlier(g + OfSide(Flatten(groups[1..]), side), cursor, MinStart(groups[0]), |base|);
    }
  }

  lemma {:induction false} FitEarlier(changes: seq<SideChange>, earlier: nat, cursor: nat, end: nat)
    requires Fit(changes, cursor, end) && earlier <= cursor
    ensures Fit(changes, earlier, end)
  {
  }

  lemma {:induction false} FitConcat(xs: seq<SideChange>, ys: seq<SideChange>, cursor: nat, middle: nat, end: nat)
    requires Fit(xs, cursor, middle) && Fit(ys, middle, end)
    ensures Fit(xs + ys, cursor, end)
    decreases |xs|
  {
    FitBounds(xs, cursor, middle);
    FitBounds(ys, middle, end);
    if xs == [] {
      assert xs + ys == ys;
      FitEarlier(ys, cursor, middle, end);
    } else {
      FitConcat(xs[1..], ys, xs[0].baseEnd, middle, end);
      assert (xs + ys)[1..] == xs[1..] + ys;
    }
  }

  /** The base up to a group, the group's slice, and the rest. */
  lemma {:induction false} ApplyGroup(base: seq<Line>, cursor: nat, start: nat, end: nat, g: seq<SideChange>,
                                      later: seq<SideChange>)
    requires cursor <= start <= end <= |base| && Fit(g, start, end) && Fit(later, end, |base|)
    ensures Apply(base, cursor, |base|, g + later)
         == base[cursor..start] + Apply(base, start, end, g) + Apply(base, end, |base|, later)
  {
    FitConcat(g, later, start, end, |base|);
    ApplyFrom(base, cursor, start, |base|, g + later);
    ApplySplit(base, start, end, |base|, g, later);
  }

  function SideOf(side: MergeSide): MergeChoice {
    if side == Incoming then ChooseIncoming else ChooseCurrent
  }

  /** Choosing one side in every hunk replays exactly that side's changes. */
  lemma {:induction false} ChoosingSideReplays(groups: seq<seq<TaggedChange>>, base: seq<Line>, cursor: nat,
                                               index: nat, side: MergeSide)
    requires GroupsFit(groups, base, cursor)
    ensures forall g | g in groups :: InBase(g, base)
    ensures HunksFit(HunksOf(base, groups, index), base, cursor)
    ensures cursor <= |base|
    ensures ResultFrom(base, HunksOf(base, groups, index), cursor, Always(SideOf(side)))
         == Apply(base, cursor, |base|, OfSide(Flatten(groups), side))
    decreases |groups|
  {
    GroupsFitHunks(groups, base, cursor, index);
    if groups == [] {
      assert base[cursor..] == base[cursor..|base|];
    } else {
      ReplayFirst(groups, base, cursor, index, side);
    }
  }

  lemma {:induction false} ReplayFirst(groups: seq<seq<TaggedChange>>, base: seq<Line>, cursor: nat, index: nat,
                                       side: MergeSide)
    requires GroupsFit(groups, base, cursor) && groups != []
    requires forall g | g in groups :: InBase(g, base)
    requires HunksFit(HunksOf(base, groups, index), base, cursor)
    ensures cursor <= |base|
    ensures ResultFrom(base, HunksOf(base, groups, index), cursor, Always(SideOf(side)))
         == Apply(base, cursor, |base|, OfSide(Flatten(groups), side))
    decreases |groups|, 0
  {
    hide Apply, OfSide, MinStart, MaxEnd, Fit;
    var g, later := OfSide(groups[0], side), OfSide(Flatten(groups[1..]), side);
    var start, end := MinStart(groups[0]), MaxEnd(groups[0]);
    ChoosingSideReplays(groups[1..], base, end, index + 1, side);
    OfSideFits(groups[1..], base, end, side);
    OfSideConcat(groups[0], Flatten(groups[1..]), side);
    ApplyGroup(base, cursor, start, end, g, later);
    FitIsSorted(g, start, end);
    assert HunksOf(base, groups, index)[1..] == HunksOf(base, groups[1..], index + 1);
  }

  /** Every hunk carries its own slice of the base. */
  lemma {:induction false} HunksCarryBase(groups: seq<seq<TaggedChange>>, base: seq<Line>, cursor: nat, index: nat)
    requires GroupsFit(groups, base, cursor)
    ensures forall g | g in groups :: InBase(g, base)
    ensures forall h | h in HunksOf(base, groups, index) ::
      h.baseStart <= h.baseEnd <= |base| && h.baseLines == base[h.baseStart..h.baseEnd]
    decreases |groups|
  {
    GroupsFitHunks(groups, base, cursor, index);
    if groups != [] {
      HunksCarryBase(groups[1..], base, MaxEnd(groups[0]), index + 1);
    }
  }

  /** Choosing the base in every hunk gives the base back. */
  lemma {:induction false} ChoosingBaseKeeps(base: seq<Line>, hunks: seq<MergeHunk>, cursor: nat)
    requires HunksFit(hunks, base, cursor)
    requires forall h | h in hunks :: h.baseStart <= h.baseEnd <= |base| && h.baseLines == base[h.baseStart..h.baseEnd]
    ensures cursor <= |base|
    ensures ResultFrom(base, hunks, cursor, Always(ChooseBase)) == base[cursor..]
    decreases |hunks|
  {
    if hunks != [] {
      var h := hunks[0];
      ChoosingBaseKeeps(base, hunks[1..], h.baseEnd);
      assert base[cursor..] == base[cursor..h.baseStart] + base[h.baseStart..h.baseEnd] + base[h.baseEnd..];
    }
  }
}
