/** Building a merge model and walking it, as the editor does it. */
module MergeBuild {
  import opened Basics
  import opened Text
  import opened Sorting
  import opened SideChanges
  import opened MergeGroups
  import opened MergeModel
  import opened MergeLaws

  // ----- Choosing for every hunk at once -----

  function WithChoice(hunks: seq<MergeHunk>, choice: MergeChoice): (r: seq<MergeHunk>)
    ensures |r| == |hunks|
    ensures forall k | 0 <= k < |hunks| :: r[k] == hunks[k].(choice := choice)
  {
    if hunks == [] then [] else [hunks[0].(choice := choice)] + WithChoice(hunks[1..], choice)
  }

  /** Recording one choice in every hunk makes the result that choice's. */
  lemma {:induction false} RecordedChoiceDecides(base: seq<Line>, hunks: seq<MergeHunk>, cursor: nat,
                                                 choice: MergeChoice)
    requires HunksFit(hunks, base, cursor)
    ensures HunksFit(WithChoice(hunks, choice), base, cursor)
    ensures ResultFrom(base, WithChoice(hunks, choice), cursor, Recorded)
            == ResultFrom(base, hunks, cursor, Always(choice))
    decreases |hunks|
  {
    if hunks != [] {
      RecordedChoiceDecides(base, hunks[1..], hunks[0].baseEnd, choice);
      assert WithChoice(hunks, choice)[1..] == WithChoice(hunks[1..], choice);
    }
  }

  // ----- The build -----

  method ApplySideChangesToSlice(base: seq<Line>, start: nat, end: nat, changes: seq<SideChange>)
      returns (lines: seq<Line>)
    requires start <= end <= |base|
    ensures lines == SideLines(base, start, end, changes)
  {
    var sorted := SortBy(changes, ChangeNotAfter);
    lines := ApplyInOrder(base, start, end, sorted);
  }

  method TaggedChanges(changes: seq<SideChange>, side: MergeSide) returns (tagged: seq<TaggedChange>)
    ensures tagged == TagAll(changes, side)
  {
    tagged := [];
    for k := 0 to |changes|
      invariant |tagged| == k && forall m | 0 <= m < k :: tagged[m] == Tagged(side, changes[m])
    {
      tagged := tagged + [Tagged(side, changes[k])];
    }
  }

  /** One pass over a group: its interval and its two sides. */
  method MeasureGroup(group: seq<TaggedChange>)
      returns (start: nat, end: nat, incoming: seq<SideChange>, current: seq<SideChange>)
    requires group != []
    ensures start == MinStart(group) && end == MaxEnd(group)
    ensures incoming == OfSide(group, Incoming) && current == OfSide(group, Current)
  {
    start, end := group[0].Start(), group[0].End();
    incoming, current := [], [];
    assert group[..1] == [group[0]] && group[..1][..0] == [];
    assert start == MinStart(group[..1]) && end == MaxEnd(group[..1]);
    assert OfSide(group[..0], Incoming) == [] && OfSide(group[..0], Current) == [];
    hide MinStart, MaxEnd, OfSide;
    for k := 0 to |group|
      invariant start == MinStart(if k == 0 then group[..1] else group[..k])
      invariant end == MaxEnd(if k == 0 then group[..1] else group[..k])
      invariant incoming == OfSide(group[..k], Incoming) && current == OfSide(group[..k], Current)
    {
      var x := group[k];
      assert group[..k + 1] == group[..k] + [x];
      Snoc(group[..k], x);
      OfSideMore(group[..k], x, Incoming);
      OfSideMore(group[..k], x, Current);
      start := Min(start, x.Start());
      end := Max(end, x.End());
      if x.side == Incoming {
        incoming := incoming + [x.change];
      } else {
        current := current + [x.change];
      }
    }
    assert group[..|group|] == group;
  }

  method FlushGroup(base: seq<Line>, group: seq<TaggedChange>, hunks: seq<MergeHunk>) returns (out: seq<MergeHunk>)
    requires InBase(group, base)
    ensures out == hunks + [HunkOf(base, group, |hunks|)]
  {
    var start, end, incoming, current := MeasureGroup(group);
    var baseLines := SliceBase(base, start, end);
    var incomingLines := ApplySideChangesToSlice(base, start, end, incoming);
    var currentLines := ApplySideChangesToSlice(base, start, end, current);
    var conflict := incomingLines != currentLines && incomingLines != baseLines && currentLines != baseLines;
    var hunk := MergeHunk(|hunks|, start, end, baseLines, incomingLines, currentLines, conflict, ChooseBase,
                          ChooseBase);
    var choice := BootstrapMergeChoice(hunk);
    out := hunks + [hunk.(choice := choice, bootstrapChoice := choice)];
  }

  lemma {:induction false} HunksOfConcat(base: seq<Line>, a: seq<seq<TaggedChange>>, b: seq<seq<TaggedChange>>,
                                         index: nat)
    requires forall g | g in a + b :: InBase(g, base)
    ensures forall g | g in a :: InBase(g, base)
    ensures forall g | g in b :: InBase(g, base)
    ensures HunksOf(base, a + b, index) == HunksOf(base, a, index) + HunksOf(base, b, index + |a|)
    decreases |a|
  {
    hide InBase, HunkOf;
    forall g | g in a || g in b ensures InBase(g, base) {
      assert g in a + b;
    }
    if a == [] {
      assert a + b == b;
    } else {
      assert (a + b)[1..] == a[1..] + b;
      HunksOfConcat(base, a[1..], b, index + 1);
    }
  }

  /** The sweep, flushing a group when the next change does not touch it. */
  method SweepIntoHunks(base: seq<Line>, all: seq<TaggedChange>) returns (hunks: seq<MergeHunk>)
    requires forall g | g in Groups(all) :: InBase(g, base)
    ensures hunks == HunksOf(base, Groups(all), 0)
  {
    hide InBase, HunkOf;
    hunks := [];
    var group: seq<TaggedChange>, groupMaxEnd: nat := [], 0;
    ghost var done: seq<seq<TaggedChange>> := [];
    assert [] + Sweep(all, 0, [], 0) == Groups(all);
    for i := 0 to |all|
      invariant done + Sweep(all, i, group, groupMaxEnd) == Groups(all)
      invariant forall g | g in done :: InBase(g, base)
      invariant |hunks| == |done| && hunks == HunksOf(base, done, 0)
      invariant group == [] ==> i == 0
    {
      var join := group == [] || all[i].Start() <= groupMaxEnd;
      if !join {
        assert group in Groups(all) by {
          assert (done + Sweep(all, i, group, groupMaxEnd))[|done|] == group;
        }
        ghost var rest := Sweep(all, i + 1, [all[i]], Max(0, all[i].End()));
        assert done + ([group] + rest) == done + [group] + rest;
        hunks := FlushDone(base, group, hunks, done);
        done := done + [group];
        group := [];
        groupMaxEnd := 0;
        assert group + [all[i]] == [all[i]];
      }
      group := group + [all[i]];
      groupMaxEnd := Max(groupMaxEnd, all[i].End());
    }
    if group != [] {
      assert group in Groups(all) by {
        assert (done + [group])[|done|] == group;
      }
      hunks := FlushDone(base, group, hunks, done);
    } else {
      assert done + [] == done;
    }
  }

  lemma {:induction false} HunksOfOneMore(base: seq<Line>, groups: seq<seq<TaggedChange>>, group: seq<TaggedChange>)
    requires forall g | g in groups :: InBase(g, base)
    requires InBase(group, base)
    ensures forall g | g in groups + [group] :: InBase(g, base)
    ensures HunksOf(base, groups + [group], 0) == HunksOf(base, groups, 0) + [HunkOf(base, group, |groups|)]
  {
    hide InBase, HunkOf;
    HunksOfConcat(base, groups, [group], 0);
    assert [group][1..] == [];
  }

  method FlushDone(base: seq<Line>, group: seq<TaggedChange>, hunks: seq<MergeHunk>, ghost done: seq<seq<TaggedChange>>)
    returns (out: seq<MergeHunk>)
    requires forall g | g in done :: InBase(g, base)
    requires InBase(group, base) && |hunks| == |done| && hunks == HunksOf(base, done, 0)
    ensures forall g | g in done + [group] :: InBase(g, base)
    ensures |out| == |done| + 1 && out == HunksOf(base, done + [group], 0)
  {
    hide InBase, HunkOf, HunksOf;
    HunksOfOneMore(base, done, group);
    out := FlushGroup(base, group, hunks);
  }

  predicate HunkNotAfter(x: MergeHunk, y: MergeHunk) {
    if x.baseStart != y.baseStart then x.baseStart < y.baseStart else x.baseEnd <= y.baseEnd
  }

  lemma {:induction false} HunksAreSorted(hunks: seq<MergeHunk>, base: seq<Line>, cursor: nat)
    requires HunksFit(hunks, base, cursor)
    ensures SortBy(hunks, HunkNotAfter) == hunks
    decreases |hunks|
  {
    if hunks != [] {
      HunksAreSorted(hunks[1..], base, hunks[0].baseEnd);
      if |hunks| > 1 {
        assert hunks[1..][0] == hunks[1];
      }
    }
  }

  lemma {:induction false} HunksAreNumbered(base: seq<Line>, groups: seq<seq<TaggedChange>>, index: nat, k: nat)
    requires forall g | g in groups :: InBase(g, base)
    requires k < |groups|
    ensures HunksOf(base, groups, index)[k].index == index + k
    decreases k
  {
    if k > 0 {
      HunksAreNumbered(base, groups[1..], index + 1, k - 1);
    }
  }

  method BuildHunks(base: seq<Line>, incoming: seq<SideChange>, current: seq<SideChange>)
      returns (hunks: seq<MergeHunk>)
    requires SideFits(incoming, base) && SideFits(current, base)
    ensures hunks == SweepHunks(base, incoming, current)
  {
    var a := TaggedChanges(incoming, Incoming);
    var b := TaggedChanges(current, Current);
    assert a == TagAll(incoming, Incoming) && b == TagAll(current, Current);
    var all := SortBy(a + b, NotAfter);
    ghost var groups := Groups(all);
    SweepFits(base, incoming, current);
    GroupsFitHunks(groups, base, 0, 0);
    hunks := SweepIntoHunks(base, all);
    HunksAreSorted(hunks, base, 0);
    hunks := SortBy(hunks, HunkNotAfter);
    for i := 0 to |hunks|
      invariant hunks == HunksOf(base, groups, 0)
    {
      HunksAreNumbered(base, groups, 0, i);
      hunks := hunks[i := hunks[i].(index := i)];
    }
  }

  method BuildMergeModel(base: string, incoming: string, current: string) returns (model: Model)
    ensures model == MergeOf(base, incoming, current)
  {
    var baseLines := SplitLineViews(base);
    var incomingLines := SplitLineViews(incoming);
    var currentLines := SplitLineViews(current);
    var agree := PhantomsAgree(base, incoming, current);
    var incomingChanges := BuildSideChanges(RealLines(baseLines, agree), RealLines(incomingLines, agree));
    var currentChanges := BuildSideChanges(RealLines(baseLines, agree), RealLines(currentLines, agree));
    SideOfTextFits(base, incoming, agree);
    SideOfTextFits(base, current, agree);
    var hunks := BuildHunks(baseLines, incomingChanges, currentChanges);
    model := Model(baseLines, incomingLines, currentLines, hunks);
  }

  // ----- The walk -----

  /** Every result line in order, under the recorded choices or the bootstrap ones. */
  method CollectMergeResultLines(model: Model, bootstrap: bool) returns (lines: seq<Line>)
    requires HunksFit(model.hunks, model.baseLines, 0)
    ensures lines == ResultLines(model, if bootstrap then Bootstrap else Recorded)
  {
    var policy := if bootstrap then Bootstrap else Recorded;
    lines := [];
    var cursor: nat := 0;
    assert model.hunks[0..] == model.hunks;
    for k := 0 to |model.hunks|
      invariant cursor <= |model.baseLines| && HunksFit(model.hunks[k..], model.baseLines, cursor)
      invariant lines + ResultFrom(model.baseLines, model.hunks[k..], cursor, policy)
             == ResultFrom(model.baseLines, model.hunks, 0, policy)
    {
      var hunk := model.hunks[k];
      assert model.hunks[k..][1..] == model.hunks[k + 1..];
      var chosen := MergeChoiceLines(hunk, if bootstrap then BootstrapMergeChoice(hunk) else hunk.choice);
      AssociateThree(lines, model.baseLines[cursor..hunk.baseStart], chosen,
                         ResultFrom(model.baseLines, model.hunks[k + 1..], hunk.baseEnd, policy));
      lines := AppendLines(lines, model.baseLines, cursor, hunk.baseStart);
      lines := lines + chosen;
      cursor := hunk.baseEnd;
    }
    assert model.baseLines[cursor..] == model.baseLines[cursor..|model.baseLines|];
    lines := AppendLines(lines, model.baseLines, cursor, |model.baseLines|);
    if lines == [] {
      lines := [""];
    }
  }

  /** What the editor shows after one choice is set in every hunk of a fresh merge. */
  lemma {:induction false} SettingEveryChoice(base: string, incoming: string, current: string)
    ensures var model := MergeOf(base, incoming, current);
      && HunksFit(model.hunks, model.baseLines, 0)
      && (forall choice :: HunksFit(WithChoice(model.hunks, choice), model.baseLines, 0))
      && ResultFrom(model.baseLines, WithChoice(model.hunks, ChooseBase), 0, Recorded) == SplitLines(base)
      && ResultFrom(model.baseLines, WithChoice(model.hunks, ChooseIncoming), 0, Recorded) == SplitLines(incoming)
      && ResultFrom(model.baseLines, WithChoice(model.hunks, ChooseCurrent), 0, Recorded) == SplitLines(current)
  {
    var model := MergeOf(base, incoming, current);
    MergeHunksFit(base, incoming, current);
    forall choice ensures HunksFit(WithChoice(model.hunks, choice), model.baseLines, 0) {
      RecordedChoiceDecides(model.baseLines, model.hunks, 0, choice);
    }
    ChoosingOneSideRebuildsIt(base, incoming, current);
    RecordedChoiceDecides(model.baseLines, model.hunks, 0, ChooseBase);
    RecordedChoiceDecides(model.baseLines, model.hunks, 0, ChooseIncoming);
    RecordedChoiceDecides(model.baseLines, model.hunks, 0, ChooseCurrent);
  }
}
