/** What the choices of a merge mean: which hunks conflict, what the bootstrap takes, and how a choice of both
    sides keeps them both. */
module MergeChoices {
  import opened Text
  import opened SideChanges
  import opened MergeGroups
  import opened MergeModel
  import opened MergeLaws

  /** Both sides changed the hunk, and not alike. */
  predicate SidesDisagree(h: MergeHunk) {
    h.incomingLines != h.baseLines && h.currentLines != h.baseLines && h.incomingLines != h.currentLines
  }

  /** A hunk as the build leaves it: it conflicts exactly where the sides disagree, and stands at the bootstrap
      choice, which is the base for a conflict and else the one change that was made. */
  ghost predicate Fresh(h: MergeHunk) {
    var bootstrap := MergeChoiceLines(h, BootstrapMergeChoice(h));
    && (h.conflict <==> SidesDisagree(h))
    && h.choice == h.bootstrapChoice == BootstrapMergeChoice(h)
    && (h.conflict ==> bootstrap == h.baseLines)
    && (!h.conflict ==> || (bootstrap == h.incomingLines && h.currentLines in [h.baseLines, h.incomingLines])
                        || (bootstrap == h.currentLines && h.incomingLines == h.baseLines))
  }

  lemma {:induction false} BuiltFresh(base: seq<Line>, group: seq<TaggedChange>, index: nat)
    requires InBase(group, base)
    ensures Fresh(HunkOf(base, group, index))
  {
    hide SideLines, SliceBase, InBase, OfSide, MinStart, MaxEnd;
  }

  lemma {:induction false} SweptFresh(base: seq<Line>, i: seq<SideChange>, c: seq<SideChange>, k: nat)
    requires SideFits(i, base) && SideFits(c, base) && k < |SweepHunks(base, i, c)|
    ensures Fresh(SweepHunks(base, i, c)[k])
  {
    hide Fresh, HunkOf, Groups, InOrder;
    var groups := Groups(InOrder(i, c));
    SweepFits(base, i, c);
    GroupsPartition(InOrder(i, c));
    InOrderIsOrdered(i, c, base);
    HunksApartFrom(base, groups, -1, 0, 0, k);
    BuiltFresh(base, groups[k], k);
  }

  lemma {:induction false} FreshHunk(base: string, incoming: string, current: string, k: nat)
    requires k < |MergeOf(base, incoming, current).hunks|
    ensures Fresh(MergeOf(base, incoming, current).hunks[k])
  {
    var agree := PhantomsAgree(base, incoming, current);
    SideOfTextFits(base, incoming, agree);
    SideOfTextFits(base, current, agree);
    hide Fresh, SweepHunks, SideOfText, SplitLines, PhantomsAgree;
    SweptFresh(SplitLines(base), SideOfText(base, incoming, agree), SideOfText(base, current, agree), k);
  }

  /** What a fresh merge shows is the bootstrap result. */
  lemma {:induction false} FreshMergeShowsBootstrap(base: string, incoming: string, current: string)
    ensures Result(base, incoming, current, Recorded) == Result(base, incoming, current, Bootstrap)
  {
    hide MergeOf;
    var model := MergeOf(base, incoming, current);
    MergeHunksFit(base, incoming, current);
    forall h | h in model.hunks ensures Choose(h, Recorded) == Choose(h, Bootstrap) {
      var k :| 0 <= k < |model.hunks| && model.hunks[k] == h;
      FreshHunk(base, incoming, current, k);
    }
    SameContributions(model.baseLines, model.hunks, 0, Recorded, Bootstrap);
  }

  // ----- Choosing both -----

  predicate TakesBoth(choice: MergeChoice) {
    choice.ChooseBoth? || choice.ChooseBothCurrentFirst? || choice.ChooseBothIncomingFirst?
  }

  /** Where the sides disagree a choice of both keeps all lines of both, one side after the other: incoming
      first only where it is asked for. */
  lemma {:induction false} BothKeepsBothSides(h: MergeHunk, choice: MergeChoice)
    requires TakesBoth(choice) && SidesDisagree(h)
    ensures var lines := MergeChoiceLines(h, choice);
            var i, c, incomingFirst := |h.incomingLines|, |h.currentLines|, choice.ChooseBothIncomingFirst?;
            && |lines| == i + c
            && (incomingFirst ==> lines[..i] == h.incomingLines && lines[i..] == h.currentLines)
            && (!incomingFirst ==> lines[..c] == h.currentLines && lines[c..] == h.incomingLines)
  {
  }

  /** Elsewhere it takes what the bootstrap takes. */
  lemma {:induction false} BothIsBootstrap(h: MergeHunk, choice: MergeChoice)
    requires TakesBoth(choice) && !SidesDisagree(h)
    ensures MergeChoiceLines(h, choice) == MergeChoiceLines(h, BootstrapMergeChoice(h))
  {
  }

  /** A merge without conflicts gives the bootstrap result however both sides are chosen. */
  lemma {:induction false} BothOfCleanMerge(base: string, incoming: string, current: string, choice: MergeChoice)
    requires TakesBoth(choice) && forall h | h in MergeOf(base, incoming, current).hunks :: !h.conflict
    ensures Result(base, incoming, current, Always(choice)) == Result(base, incoming, current, Bootstrap)
  {
    hide MergeOf, MergeChoiceLines, BootstrapMergeChoice, SidesDisagree;
    var model := MergeOf(base, incoming, current);
    MergeHunksFit(base, incoming, current);
    forall h | h in model.hunks
      ensures MergeChoiceLines(h, Choose(h, Always(choice))) == MergeChoiceLines(h, Choose(h, Bootstrap)) {
      var k :| 0 <= k < |model.hunks| && model.hunks[k] == h;
      FreshHunk(base, incoming, current, k);
      BothIsBootstrap(h, choice);
    }
    SameContributions(model.baseLines, model.hunks, 0, Always(choice), Bootstrap);
  }

  /** Plain both is both with current first. */
  lemma {:induction false} BothIsCurrentFirst(base: string, incoming: string, current: string)
    ensures Result(base, incoming, current, Always(ChooseBoth))
         == Result(base, incoming, current, Always(ChooseBothCurrentFirst))
  {
    hide MergeOf;
    var model := MergeOf(base, incoming, current);
    MergeHunksFit(base, incoming, current);
    SameContributions(model.baseLines, model.hunks, 0, Always(ChooseBoth), Always(ChooseBothCurrentFirst));
  }

  lemma {:induction false} SwappedBoth(base: seq<Line>, hunks: seq<MergeHunk>, others: seq<MergeHunk>, cursor: nat)
    requires HunksFit(hunks, base, cursor) && HunksFit(others, base, cursor)
    requires |hunks| == |others| && forall k | 0 <= k < |hunks| :: others[k] == Swapped(hunks[k])
    ensures ResultFrom(base, hunks, cursor, Always(ChooseBothIncomingFirst))
         == ResultFrom(base, others, cursor, Always(ChooseBothCurrentFirst))
    decreases |hunks|
  {
    if hunks != [] {
      assert others[0] == Swapped(hunks[0]);
      SwappedBoth(base, hunks[1..], others[1..], hunks[0].baseEnd);
    }
  }

  /** Exchanging the sides exchanges the two orders. */
  lemma {:induction false} SwapSwapsBoth(base: string, incoming: string, current: string)
    ensures Result(base, incoming, current, Always(ChooseBothIncomingFirst))
         == Result(base, current, incoming, Always(ChooseBothCurrentFirst))
  {
    SwapSwapsHunks(base, incoming, current);
    MergeHunksFit(base, incoming, current);
    MergeHunksFit(base, current, incoming);
    SwappedBoth(SplitLines(base), MergeOf(base, incoming, current).hunks, MergeOf(base, current, incoming).hunks, 0);
  }
}
