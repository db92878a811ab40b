/** The three-pane display of a merge: rows that show incoming, result and current side by side. */
module MergeDisplay {
  import opened Basics
  import opened Text
  import opened MergeModel
  import opened MergeGroups
  import MergeLaws
  import MergeBuild

  datatype DisplayRow = DisplayRow(
    incomingText: Line, resultText: Line, currentText: Line,
    incomingLine: nat, resultLine: nat, currentLine: nat,
    hunk: int, conflict: bool,
    incomingChanged: bool, resultChanged: bool, currentChanged: bool)

  datatype DisplayHunk = DisplayHunk(index: nat, startRow: nat, endRow: nat)

  /** A display under way, with the next line number of each pane. */
  datatype Display = Display(rows: seq<DisplayRow>, hunks: seq<DisplayHunk>, incomingLine: nat, resultLine: nat,
                             currentLine: nat)

  datatype Pane = IncomingPane | ResultPane | CurrentPane

  function LineIn(row: DisplayRow, pane: Pane): nat {
    match pane
    case IncomingPane => row.incomingLine
    case ResultPane => row.resultLine
    case CurrentPane => row.currentLine
  }

  function TextIn(row: DisplayRow, pane: Pane): Line {
    match pane
    case IncomingPane => row.incomingText
    case ResultPane => row.resultText
    case CurrentPane => row.currentText
  }

  function NextLine(d: Display, pane: Pane): nat {
    match pane
    case IncomingPane => d.incomingLine
    case ResultPane => d.resultLine
    case CurrentPane => d.currentLine
  }

  // ----- Building -----

  function WithRow(d: Display, row: DisplayRow): Display {
    Display(d.rows + [row], d.hunks, d.incomingLine + Bears(row.incomingLine), d.resultLine + Bears(row.resultLine),
            d.currentLine + Bears(row.currentLine))
  }

  /** A base line no hunk touches, the same in all panes. */
  function UnchangedRow(d: Display, text: Line): DisplayRow {
    DisplayRow(text, text, text, d.incomingLine, d.resultLine, d.currentLine, -1, false, false, false, false)
  }

  function WithUnchanged(d: Display, lines: seq<Line>): Display {
    if lines == [] then d
    else
      var before := WithUnchanged(d, lines[..|lines| - 1]);
      WithRow(before, UnchangedRow(before, lines[|lines| - 1]))
  }

  function At(lines: seq<Line>, k: nat): Line { if k < |lines| then lines[k] else "" }

  function NumberAt(lines: seq<Line>, k: nat, next: nat): nat { if k < |lines| then next else 0 }

  /** Row `k` of a hunk. */
  function HunkRow(d: Display, h: MergeHunk, k: nat): DisplayRow {
    var result := MergeChoiceLines(h, h.choice);
    DisplayRow(At(h.incomingLines, k), At(result, k), At(h.currentLines, k),
               NumberAt(h.incomingLines, k, d.incomingLine), NumberAt(result, k, d.resultLine),
                   NumberAt(h.currentLines, k, d.currentLine),
               h.index, h.conflict, h.incomingLines != h.baseLines, result != h.baseLines,
                   h.currentLines != h.baseLines)
  }

  function WithHunkRows(d: Display, h: MergeHunk, count: nat): Display {
    if count == 0 then d
    else
      var before := WithHunkRows(d, h, count - 1);
      WithRow(before, HunkRow(before, h, count - 1))
  }

  function RowCount(h: MergeHunk): nat {
    Max(|h.incomingLines|, Max(|MergeChoiceLines(h, h.choice)|, |h.currentLines|))
  }

  /** A hunk that has no line in any pane gets no display hunk. */
  function WithHunk(d: Display, h: MergeHunk): Display {
    var r := WithHunkRows(d, h, RowCount(h));
    if |r.rows| > |d.rows| then r.(hunks := d.hunks + [DisplayHunk(h.index, |d.rows|, |r.rows| - 1)]) else r
  }

  function DisplayFrom(d: Display, base: seq<Line>, hunks: seq<MergeHunk>, cursor: nat): Display
    requires HunksFit(hunks, base, cursor)
    decreases |hunks|
  {
    if hunks == [] then WithUnchanged(d, base[cursor..])
    else DisplayFrom(WithHunk(WithUnchanged(d, base[cursor..hunks[0].baseStart]), hunks[0]), base, hunks[1..],
                     hunks[0].baseEnd)
  }

  const EMPTY := Display([], [], 1, 1, 1)

  function HunkDisplay(model: Model): Display
    requires HunksFit(model.hunks, model.baseLines, 0)
  {
    DisplayFrom(EMPTY, model.baseLines, model.hunks, 0)
  }

  /** A display that would have no rows shows the lines of the result in every pane instead. */
  function DisplayOf(model: Model): Display
    requires HunksFit(model.hunks, model.baseLines, 0)
  {
    var d := HunkDisplay(model);
    if d.rows == [] then WithUnchanged(d, ResultLines(model, Recorded)) else d
  }

  // ----- Each pane spells its lines -----

  function PaneTexts(rows: seq<DisplayRow>, pane: Pane): seq<Line> {
    if rows == [] then []
    else
      var row := rows[|rows| - 1];
      PaneTexts(rows[..|rows| - 1], pane) + if LineIn(row, pane) != 0 then [TextIn(row, pane)] else []
  }

  ghost predicate Numbered(rows: seq<DisplayRow>, pane: Pane) {
    rows == [] ||
    var row := rows[|rows| - 1];
    && Numbered(rows[..|rows| - 1], pane)
    && (LineIn(row, pane) != 0 ==> LineIn(row, pane) == |PaneTexts(rows, pane)|)
  }

  /** The pane shows exactly these lines, numbered from 1. */
  ghost predicate Shows(d: Display, pane: Pane, lines: seq<Line>) {
    PaneTexts(d.rows, pane) == lines && Numbered(d.rows, pane) && NextLine(d, pane) == |lines| + 1
  }

  lemma {:induction false} ShowsRow(d: Display, pane: Pane, lines: seq<Line>, row: DisplayRow)
    requires Shows(d, pane, lines) && (LineIn(row, pane) == 0 || LineIn(row, pane) == NextLine(d, pane))
    ensures Shows(WithRow(d, row), pane, lines + if LineIn(row, pane) != 0 then [TextIn(row, pane)] else [])
  {
    assert (d.rows + [row])[..|d.rows|] == d.rows;
  }

  lemma {:induction false} ShowsUnchanged(d: Display, pane: Pane, lines: seq<Line>, more: seq<Line>)
    requires Shows(d, pane, lines)
    ensures Shows(WithUnchanged(d, more), pane, lines + more)
  {
    if more == [] {
      assert lines + more == lines;
    } else {
      var n := |more| - 1;
      ShowsUnchanged(d, pane, lines, more[..n]);
      var before := WithUnchanged(d, more[..n]);
      ShowsRow(before, pane, lines + more[..n], UnchangedRow(before, more[n]));
      assert lines + more == lines + more[..n] + [more[n]];
    }
  }

  function LinesIn(h: MergeHunk, pane: Pane): seq<Line> {
    match pane
    case IncomingPane => h.incomingLines
    case ResultPane => MergeChoiceLines(h, h.choice)
    case CurrentPane => h.currentLines
  }

  lemma {:induction false} HunkRowIn(d: Display, h: MergeHunk, k: nat, pane: Pane)
    ensures LineIn(HunkRow(d, h, k), pane) == NumberAt(LinesIn(h, pane), k, NextLine(d, pane))
    ensures TextIn(HunkRow(d, h, k), pane) == At(LinesIn(h, pane), k)
  {
  }

  lemma {:induction false} ShowsHunkRows(d: Display, pane: Pane, lines: seq<Line>, h: MergeHunk, count: nat)
    requires Shows(d, pane, lines)
    ensures Shows(WithHunkRows(d, h, count), pane, lines + LinesIn(h, pane)[..Min(count, |LinesIn(h, pane)|)])
  {
    hide WithRow, HunkRow, Bears;
    var side := LinesIn(h, pane);
    if count == 0 {
      assert lines + side[..0] == lines;
    } else {
      var k := count - 1;
      ShowsHunkRows(d, pane, lines, h, k);
      var before := WithHunkRows(d, h, k);
      HunkRowIn(before, h, k, pane);
      ShowsRow(before, pane, lines + side[..Min(k, |side|)], HunkRow(before, h, k));
      OneMoreLine(lines, side, k);
    }
  }

  lemma {:induction false} OneMoreLine(lines: seq<Line>, side: seq<Line>, k: nat)
    ensures lines + side[..Min(k, |side|)] + (if k < |side| then [side[k]] else [])
            == lines + side[..Min(k + 1, |side|)]
  {
  }

  lemma {:induction false} ShowsHunk(d: Display, pane: Pane, lines: seq<Line>, h: MergeHunk)
    requires Shows(d, pane, lines)
    ensures Shows(WithHunk(d, h), pane, lines + LinesIn(h, pane))
  {
    ShowsHunkRows(d, pane, lines, h, RowCount(h));
    assert LinesIn(h, pane)[..|LinesIn(h, pane)|] == LinesIn(h, pane);
  }

  function PolicyOf(pane: Pane): Policy {
    match pane
    case IncomingPane => Always(ChooseIncoming)
    case ResultPane => Recorded
    case CurrentPane => Always(ChooseCurrent)
  }

  lemma {:induction false} ShowsFrom(d: Display, pane: Pane, lines: seq<Line>, base: seq<Line>,
                                     hunks: seq<MergeHunk>, cursor: nat)
    requires HunksFit(hunks, base, cursor) && Shows(d, pane, lines)
    ensures Shows(DisplayFrom(d, base, hunks, cursor), pane, lines + ResultFrom(base, hunks, cursor, PolicyOf(pane)))
    decreases |hunks|
  {
    hide Shows, WithUnchanged;
    if hunks == [] {
      ShowsUnchanged(d, pane, lines, base[cursor..]);
    } else {
      var h, gap := hunks[0], base[cursor..hunks[0].baseStart];
      ShowsUnchanged(d, pane, lines, gap);
      ShowsHunk(WithUnchanged(d, gap), pane, lines + gap, h);
      ShowsFrom(WithHunk(WithUnchanged(d, gap), h), pane, lines + gap + LinesIn(h, pane), base, hunks[1..], h.baseEnd);
      AssociateThree(lines, gap, LinesIn(h, pane), ResultFrom(base, hunks[1..], h.baseEnd, PolicyOf(pane)));
    }
  }

  lemma {:induction false} HunkDisplayShows(model: Model, pane: Pane)
    requires HunksFit(model.hunks, model.baseLines, 0)
    ensures Shows(HunkDisplay(model), pane, PaneLines(model, pane))
  {
    ShowsFrom(EMPTY, pane, [], model.baseLines, model.hunks, 0);
    assert [] + PaneLines(model, pane) == PaneLines(model, pane);
  }

  /** What the hunks and the base put into a pane: the result under the recorded choices, and on the
      outer panes the result of choosing their side everywhere. */
  function PaneLines(model: Model, pane: Pane): seq<Line>
    requires HunksFit(model.hunks, model.baseLines, 0)
  {
    ResultFrom(model.baseLines, model.hunks, 0, PolicyOf(pane))
  }

  ghost predicate NothingToShow(model: Model)
    requires HunksFit(model.hunks, model.baseLines, 0)
  {
    forall pane :: PaneLines(model, pane) == []
  }

  /** Every row has a line in some pane. */
  ghost predicate Bearing(d: Display) {
    && d.incomingLine > 0 && d.resultLine > 0 && d.currentLine > 0
    && forall r | 0 <= r < |d.rows| :: RowBears(d.rows[r])
  }

  predicate RowBears(row: DisplayRow) {
    row.incomingLine != 0 || row.resultLine != 0 || row.currentLine != 0
  }

  lemma {:induction false} UnchangedBears(d: Display, lines: seq<Line>)
    requires Bearing(d)
    ensures Bearing(WithUnchanged(d, lines))
  {
    if lines != [] {
      UnchangedBears(d, lines[..|lines| - 1]);
    }
  }

  lemma {:induction false} HunkRowsBear(d: Display, h: MergeHunk, count: nat)
    requires Bearing(d) && count <= RowCount(h)
    ensures Bearing(WithHunkRows(d, h, count))
  {
    if count > 0 {
      HunkRowsBear(d, h, count - 1);
    }
  }

  lemma {:induction false} RowsBear(d: Display, base: seq<Line>, hunks: seq<MergeHunk>, cursor: nat)
    requires HunksFit(hunks, base, cursor) && Bearing(d)
    ensures Bearing(DisplayFrom(d, base, hunks, cursor))
    decreases |hunks|
  {
    if hunks == [] {
      UnchangedBears(d, base[cursor..]);
    } else {
      var gap := base[cursor..hunks[0].baseStart];
      UnchangedBears(d, gap);
      HunkRowsBear(WithUnchanged(d, gap), hunks[0], RowCount(hunks[0]));
      RowsBear(WithHunk(WithUnchanged(d, gap), hunks[0]), base, hunks[1..], hunks[0].baseEnd);
    }
  }

  /** The fallback is taken exactly when no pane has a line. */
  lemma {:induction false} FallbackWhenNothingToShow(model: Model)
    requires HunksFit(model.hunks, model.baseLines, 0)
    ensures HunkDisplay(model).rows == [] <==> NothingToShow(model)
  {
    var d := HunkDisplay(model);
    RowsBear(EMPTY, model.baseLines, model.hunks, 0);
    forall pane ensures Shows(d, pane, PaneLines(model, pane)) {
      HunkDisplayShows(model, pane);
    }
    if d.rows != [] {
      var last := d.rows[|d.rows| - 1];
      assert RowBears(last);
      var pane := if last.incomingLine != 0 then IncomingPane
                  else if last.resultLine != 0 then ResultPane else CurrentPane;
      assert Shows(d, pane, PaneLines(model, pane));
    } else {
      forall pane ensures PaneLines(model, pane) == [] {
        assert Shows(d, pane, PaneLines(model, pane));
      }
    }
  }

  /** The result pane spells the result under the recorded choices; the outer panes spell the result of
      choosing their side everywhere.  Where no pane has a line, each shows a single empty one. */
  lemma {:induction false} PanesSpellLines(model: Model, pane: Pane)
    requires HunksFit(model.hunks, model.baseLines, 0)
    ensures Shows(DisplayOf(model), pane, if NothingToShow(model) then [""] else PaneLines(model, pane))
  {
    FallbackWhenNothingToShow(model);
    HunkDisplayShows(model, pane);
    if NothingToShow(model) {
      assert PaneLines(model, ResultPane) == [] && PaneLines(model, pane) == [];
      ShowsUnchanged(HunkDisplay(model), pane, [], [""]);
      assert [] + [""] == [""];
    }
  }

  /** `model` with other choices recorded. */
  ghost predicate ChoicesSet(model: Model, chosen: Model) {
    && chosen.baseLines == model.baseLines && |chosen.hunks| == |model.hunks|
    && forall k | 0 <= k < |model.hunks| :: chosen.hunks[k] == model.hunks[k].(choice := chosen.hunks[k].choice)
  }

  lemma {:induction false} OnlyChoicesDiffer(base: seq<Line>, hunks: seq<MergeHunk>, chosen: seq<MergeHunk>,
                                             cursor: nat, choice: MergeChoice)
    requires HunksFit(hunks, base, cursor) && |chosen| == |hunks|
    requires forall k | 0 <= k < |hunks| :: chosen[k] == hunks[k].(choice := chosen[k].choice)
    ensures HunksFit(chosen, base, cursor)
    ensures ResultFrom(base, chosen, cursor, Always(choice)) == ResultFrom(base, hunks, cursor, Always(choice))
    decreases |hunks|
  {
    if hunks != [] {
      assert chosen[0] == hunks[0].(choice := chosen[0].choice);
      OnlyChoicesDiffer(base, hunks[1..], chosen[1..], hunks[0].baseEnd, choice);
    }
  }

  /** For a merge of three texts, whatever choices were recorded, the outer panes spell the whole of the
      incoming and the current file. */
  lemma {:induction false} OuterPanesSpellFiles(base: string, incoming: string, current: string, model: Model)
    requires ChoicesSet(MergeLaws.MergeOf(base, incoming, current), model)
    ensures HunksFit(model.hunks, model.baseLines, 0) && !NothingToShow(model)
    ensures Shows(DisplayOf(model), IncomingPane, SplitLines(incoming))
    ensures Shows(DisplayOf(model), CurrentPane, SplitLines(current))
  {
    hide MergeLaws.MergeOf;
    var merge := MergeLaws.MergeOf(base, incoming, current);
    MergeLaws.MergeHunksFit(base, incoming, current);
    BaseOfMerge(base, incoming, current);
    MergeLaws.ChoosingOneSideRebuildsIt(base, incoming, current);
    OnlyChoicesDiffer(model.baseLines, merge.hunks, model.hunks, 0, ChooseIncoming);
    OnlyChoicesDiffer(model.baseLines, merge.hunks, model.hunks, 0, ChooseCurrent);
    assert PaneLines(model, IncomingPane) == SplitLines(incoming) != [];
    PanesSpellLines(model, IncomingPane);
    PanesSpellLines(model, CurrentPane);
  }

  /** ...so its display has rows and the fallback is never taken. */
  lemma {:induction false} MergeNeedsNoFallback(base: string, incoming: string, current: string, model: Model)
    requires ChoicesSet(MergeLaws.MergeOf(base, incoming, current), model)
    ensures HunksFit(model.hunks, model.baseLines, 0)
    ensures HunkDisplay(model).rows != [] && DisplayOf(model) == HunkDisplay(model)
  {
    OuterPanesSpellFiles(base, incoming, current, model);
    FallbackWhenNothingToShow(model);
  }

  lemma {:induction false} BaseOfMerge(base: string, incoming: string, current: string)
    ensures MergeLaws.MergeOf(base, incoming, current).baseLines == SplitLines(base)
  {
  }

  // ----- The display hunks -----

  /** Hunks have rows, follow each other, and their rows name them; every other row names none. */
  ghost predicate Placed(d: Display) {
    && (forall k | 0 <= k < |d.hunks| :: HunkPlaced(d, k))
    && (forall k | 0 < k < |d.hunks| :: Follows(d.hunks[k - 1], d.hunks[k]))
    && (forall r | 0 <= r < |d.rows| :: d.rows[r].hunk == -1 || NamedBy(d, r))
  }

  ghost predicate HunkPlaced(d: Display, k: nat) {
    && k < |d.hunks| && d.hunks[k].startRow <= d.hunks[k].endRow < |d.rows|
    && forall r | d.hunks[k].startRow <= r <= d.hunks[k].endRow :: d.rows[r].hunk == d.hunks[k].index
  }

  predicate Follows(a: DisplayHunk, b: DisplayHunk) {
    a.endRow < b.startRow && a.index < b.index
  }

  ghost predicate NamedBy(d: Display, r: nat) {
    exists k :: 0 <= k < |d.hunks| && d.hunks[k].startRow <= r <= d.hunks[k].endRow
  }

  /** All display hunks come from model hunks before `index`. */
  ghost predicate Below(d: Display, index: nat) {
    forall k | 0 <= k < |d.hunks| :: d.hunks[k].index < index
  }

  /** Rows added that name no hunk. */
  ghost predicate AddsUnchanged(d: Display, e: Display) {
    && e.hunks == d.hunks && |d.rows| <= |e.rows| && e.rows[..|d.rows|] == d.rows
    && forall r | |d.rows| <= r < |e.rows| :: e.rows[r].hunk == -1
  }

  lemma {:induction false} UnchangedAdds(d: Display, lines: seq<Line>)
    ensures AddsUnchanged(d, WithUnchanged(d, lines))
  {
    if lines != [] {
      UnchangedAdds(d, lines[..|lines| - 1]);
    }
  }

  ghost predicate AddsHunkRows(d: Display, e: Display, h: MergeHunk, count: nat) {
    && e.hunks == d.hunks && |e.rows| == |d.rows| + count && e.rows[..|d.rows|] == d.rows
    && forall r | |d.rows| <= r < |e.rows| :: e.rows[r].hunk == h.index
  }

  lemma {:induction false} HunkRowsAdd(d: Display, h: MergeHunk, count: nat)
    ensures AddsHunkRows(d, WithHunkRows(d, h, count), h, count)
  {
    if count > 0 {
      HunkRowsAdd(d, h, count - 1);
    }
  }

  lemma {:induction false} Carried(d: Display, e: Display, r: nat)
    requires |d.rows| <= |e.rows| && e.rows[..|d.rows|] == d.rows && r < |d.rows|
    ensures e.rows[r] == d.rows[r]
  {
    assert e.rows[r] == e.rows[..|d.rows|][r];
  }

  lemma {:induction false} PlacedUnchanged(d: Display, e: Display)
    requires Placed(d) && AddsUnchanged(d, e)
    ensures Placed(e)
  {
    forall k | 0 <= k < |e.hunks| ensures HunkPlaced(e, k) {
      assert HunkPlaced(d, k);
    }
    forall r | 0 <= r < |e.rows| ensures e.rows[r].hunk == -1 || NamedBy(e, r) {
      if r < |d.rows| {
        Carried(d, e, r);
        if NamedBy(d, r) {
          var k :| 0 <= k < |d.hunks| && d.hunks[k].startRow <= r <= d.hunks[k].endRow;
          assert e.hunks[k] == d.hunks[k];
        }
      }
    }
  }

  lemma {:induction false} PlacedHunkRows(d: Display, e: Display, h: MergeHunk, count: nat)
    requires Placed(d) && Below(d, h.index) && AddsHunkRows(d, e, h, count) && count > 0
    ensures Placed(e.(hunks := d.hunks + [DisplayHunk(h.index, |d.rows|, |e.rows| - 1)]))
  {
    var last := DisplayHunk(h.index, |d.rows|, |e.rows| - 1);
    var f := e.(hunks := d.hunks + [last]);
    forall k | 0 <= k < |f.hunks| ensures HunkPlaced(f, k) {
      assert k < |d.hunks| ==> HunkPlaced(d, k);
    }
    forall k | 0 < k < |f.hunks| ensures Follows(f.hunks[k - 1], f.hunks[k]) {
      assert HunkPlaced(d, k - 1);
      assert k < |d.hunks| ==> Follows(d.hunks[k - 1], d.hunks[k]);
    }
    forall r | 0 <= r < |f.rows| ensures f.rows[r].hunk == -1 || NamedBy(f, r) {
      if r < |d.rows| {
        Carried(d, e, r);
        if NamedBy(d, r) {
          var k :| 0 <= k < |d.hunks| && d.hunks[k].startRow <= r <= d.hunks[k].endRow;
          assert f.hunks[k] == d.hunks[k];
        }
      } else {
        assert f.hunks[|d.hunks|] == last;
      }
    }
  }

  /** Model hunks carry ascending numbers. */
  ghost predicate Numbers(hunks: seq<MergeHunk>, index: nat) {
    hunks == [] || (hunks[0].index == index && Numbers(hunks[1..], index + 1))
  }

  lemma {:induction false} PlacedWithHunk(d: Display, h: MergeHunk)
    requires Placed(d) && Below(d, h.index)
    ensures Placed(WithHunk(d, h)) && Below(WithHunk(d, h), h.index + 1)
  {
    HunkRowsAdd(d, h, RowCount(h));
    var e := WithHunkRows(d, h, RowCount(h));
    if RowCount(h) > 0 {
      PlacedHunkRows(d, e, h, RowCount(h));
    } else {
      assert e.rows == d.rows;
    }
  }

  lemma {:induction false} PlacedFrom(d: Display, base: seq<Line>, hunks: seq<MergeHunk>, cursor: nat, index: nat)
    requires HunksFit(hunks, base, cursor) && Placed(d) && Below(d, index) && Numbers(hunks, index)
    ensures Placed(DisplayFrom(d, base, hunks, cursor))
    decreases |hunks|
  {
    if hunks == [] {
      UnchangedAdds(d, base[cursor..]);
      PlacedUnchanged(d, WithUnchanged(d, base[cursor..]));
    } else {
      var gap := base[cursor..hunks[0].baseStart];
      var e := WithUnchanged(d, gap);
      UnchangedAdds(d, gap);
      PlacedUnchanged(d, e);
      PlacedWithHunk(e, hunks[0]);
      PlacedFrom(WithHunk(e, hunks[0]), base, hunks[1..], hunks[0].baseEnd, index + 1);
    }
  }

  /** The hunks of a display have rows, follow each other, and are named by exactly their rows. */
  lemma {:induction false} DisplayIsPlaced(model: Model)
    requires HunksFit(model.hunks, model.baseLines, 0) && Numbers(model.hunks, 0)
    ensures Placed(DisplayOf(model))
  {
    PlacedFrom(EMPTY, model.baseLines, model.hunks, 0, 0);
    UnchangedAdds(HunkDisplay(model), ResultLines(model, Recorded));
    PlacedUnchanged(HunkDisplay(model), WithUnchanged(HunkDisplay(model), ResultLines(model, Recorded)));
  }

  lemma {:induction false} HunksOfAreNumbered(base: seq<Line>, groups: seq<seq<TaggedChange>>, index: nat)
    requires forall g | g in groups :: InBase(g, base)
    ensures Numbers(HunksOf(base, groups, index), index)
    decreases |groups|
  {
    if groups != [] {
      HunksOfAreNumbered(base, groups[1..], index + 1);
      assert HunksOf(base, groups, index)[1..] == HunksOf(base, groups[1..], index + 1);
    }
  }

  lemma {:induction false} ChosenAreNumbered(hunks: seq<MergeHunk>, chosen: seq<MergeHunk>, index: nat)
    requires Numbers(hunks, index) && |chosen| == |hunks|
    requires forall k | 0 <= k < |hunks| :: chosen[k] == hunks[k].(choice := chosen[k].choice)
    ensures Numbers(chosen, index)
    decreases |hunks|
  {
    if hunks != [] {
      assert chosen[0] == hunks[0].(choice := chosen[0].choice);
      ChosenAreNumbered(hunks[1..], chosen[1..], index + 1);
    }
  }

  /** ...in particular those of every merge of three texts, whatever choices were recorded. */
  lemma {:induction false} MergeDisplayIsPlaced(base: string, incoming: string, current: string, model: Model)
    requires ChoicesSet(MergeLaws.MergeOf(base, incoming, current), model)
    ensures HunksFit(model.hunks, model.baseLines, 0) && Placed(DisplayOf(model))
  {
    hide MergeLaws.MergeOf;
    OuterPanesSpellFiles(base, incoming, current, model);
    MergeIsNumbered(base, incoming, current);
    ChosenAreNumbered(MergeLaws.MergeOf(base, incoming, current).hunks, model.hunks, 0);
    DisplayIsPlaced(model);
  }

  lemma {:induction false} MergeIsNumbered(base: string, incoming: string, current: string)
    ensures Numbers(MergeLaws.MergeOf(base, incoming, current).hunks, 0)
  {
    var agree := MergeLaws.PhantomsAgree(base, incoming, current);
    var i, c := MergeLaws.SideOfText(base, incoming, agree), MergeLaws.SideOfText(base, current, agree);
    MergeLaws.SideOfTextFits(base, incoming, agree);
    MergeLaws.SideOfTextFits(base, current, agree);
    MergeLaws.SweepFits(SplitLines(base), i, c);
    GroupsFitHunks(Groups(InOrder(i, c)), SplitLines(base), 0, 0);
    HunksOfAreNumbered(SplitLines(base), Groups(InOrder(i, c)), 0);
  }

  // ----- The method -----

  method AppendUnchanged(d: Display, base: seq<Line>, from: nat, upTo: nat) returns (e: Display)
    requires from <= upTo <= |base|
    ensures e == WithUnchanged(d, base[from..upTo])
  {
    e := d;
    var line := from;
    while line < upTo
      invariant from <= line <= upTo && e == WithUnchanged(d, base[from..line])
    {
      assert base[from..line + 1][..line - from] == base[from..line];
      e := WithRow(e, UnchangedRow(e, base[line]));
      line := line + 1;
    }
  }

  method AppendHunk(d: Display, h: MergeHunk) returns (e: Display)
    ensures e == WithHunk(d, h)
  {
    e := d;
    var row := 0;
    while row < RowCount(h)
      invariant row <= RowCount(h) && e == WithHunkRows(d, h, row)
    {
      e := WithRow(e, HunkRow(e, h, row));
      row := row + 1;
    }
    if |e.rows| > |d.rows| {
      HunkRowsAdd(d, h, RowCount(h));
      e := e.(hunks := e.hunks + [DisplayHunk(h.index, |d.rows|, |e.rows| - 1)]);
    }
  }

  method BuildMergeDisplayModel(model: Model) returns (d: Display)
    requires HunksFit(model.hunks, model.baseLines, 0)
    ensures d == DisplayOf(model)
  {
    d := EMPTY;
    var baseCursor: nat, k: nat := 0, 0;
    while k < |model.hunks|
      invariant k <= |model.hunks| && HunksFit(model.hunks[k..], model.baseLines, baseCursor)
      invariant DisplayFrom(d, model.baseLines, model.hunks[k..], baseCursor) == HunkDisplay(model)
    {
      var h := model.hunks[k];
      assert model.hunks[k..][1..] == model.hunks[k + 1..];
      d := AppendUnchanged(d, model.baseLines, baseCursor, h.baseStart);
      d := AppendHunk(d, h);
      baseCursor := h.baseEnd;
      k := k + 1;
    }
    d := AppendUnchanged(d, model.baseLines, baseCursor, |model.baseLines|);
    assert model.baseLines[baseCursor..] == model.baseLines[baseCursor..|model.baseLines|];
    if d.rows == [] {
      var lines := MergeBuild.CollectMergeResultLines(model, false);
      d := AppendUnchanged(d, lines, 0, |lines|);
      assert lines[0..|lines|] == lines;
    }
  }
}
