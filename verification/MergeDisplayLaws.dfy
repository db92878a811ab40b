/** What the rows of a merge display say: the rows of a hunk put its lines side by side from the top and flag what
    differs; every other row is the same in all panes. */
module MergeDisplayLaws {
  import opened Text
  import opened MergeModel
  import opened MergeDisplay

  /** Line `k` of what a pane shows of a hunk, or an unnumbered blank where the pane has fewer lines. */
  ghost predicate PaneShows(row: DisplayRow, h: MergeHunk, k: nat, pane: Pane) {
    if k < |LinesIn(h, pane)| then LineIn(row, pane) != 0 && TextIn(row, pane) == LinesIn(h, pane)[k]
    else LineIn(row, pane) == 0 && TextIn(row, pane) == ""
  }

  /** Row `k` of a hunk: its line in every pane, flagged where the pane's lines are not the base's, and as a conflict
      when the hunk is one. */
  ghost predicate RowShows(row: DisplayRow, h: MergeHunk, k: nat) {
    && row.hunk == h.index && row.conflict == h.conflict
    && (row.incomingChanged <==> h.incomingLines != h.baseLines)
    && (row.resultChanged <==> LinesIn(h, ResultPane) != h.baseLines)
    && (row.currentChanged <==> h.currentLines != h.baseLines)
    && forall pane :: PaneShows(row, h, k, pane)
  }

  /** The longest pane of the hunk has `n` lines. */
  ghost predicate Longest(h: MergeHunk, n: nat) {
    (forall pane :: |LinesIn(h, pane)| <= n) && exists pane :: |LinesIn(h, pane)| == n
  }

  /** Display hunk `x` is the hunk's: it has a row for every line of the longest pane. */
  ghost predicate ShowsHunkAt(d: Display, h: MergeHunk, x: nat) {
    && x < |d.hunks| && d.hunks[x].index == h.index
    && d.hunks[x].startRow <= d.hunks[x].endRow < |d.rows|
    && Longest(h, d.hunks[x].endRow + 1 - d.hunks[x].startRow)
    && forall r | d.hunks[x].startRow <= r <= d.hunks[x].endRow :: RowShows(d.rows[r], h, r - d.hunks[x].startRow)
  }

  /** A hunk with a line in some pane has its display hunk. */
  ghost predicate HunkShown(d: Display, h: MergeHunk) {
    Longest(h, 0) || exists x :: ShowsHunkAt(d, h, x)
  }

  /** A row of no hunk shows one line in all panes, unflagged. */
  ghost predicate SameEverywhere(row: DisplayRow) {
    && row.incomingText == row.resultText == row.currentText
    && row.incomingLine != 0 && row.resultLine != 0 && row.currentLine != 0
    && !row.conflict && !row.incomingChanged && !row.resultChanged && !row.currentChanged
  }

  ghost predicate RestIsSame(d: Display) {
    forall r | 0 <= r < |d.rows| && d.rows[r].hunk == -1 :: SameEverywhere(d.rows[r])
  }

  // ----- Rows and hunks only ever added -----

  ghost predicate Extends(d: Display, e: Display) {
    && |d.rows| <= |e.rows| && (forall r | 0 <= r < |d.rows| :: e.rows[r] == d.rows[r])
    && |d.hunks| <= |e.hunks| && (forall x | 0 <= x < |d.hunks| :: e.hunks[x] == d.hunks[x])
  }

  lemma {:induction false} StillShown(d: Display, e: Display, h: MergeHunk)
    requires HunkShown(d, h) && Extends(d, e)
    ensures HunkShown(e, h)
  {
    hide RowShows, Longest;
    if x :| ShowsHunkAt(d, h, x) {
      assert ShowsHunkAt(e, h, x);
    }
  }

  lemma {:induction false} UnchangedExtends(d: Display, lines: seq<Line>)
    requires Bearing(d) && RestIsSame(d)
    ensures var e := WithUnchanged(d, lines); Extends(d, e) && Bearing(e) && RestIsSame(e)
  {
    UnchangedBears(d, lines);
    if lines != [] {
      var n := |lines| - 1;
      UnchangedExtends(d, lines[..n]);
      var before := WithUnchanged(d, lines[..n]);
      assert SameEverywhere(UnchangedRow(before, lines[n]));
      hide SameEverywhere, UnchangedRow, RowBears;
    }
  }

  lemma {:induction false} HunkRowShows(d: Display, h: MergeHunk, k: nat)
    requires d.incomingLine > 0 && d.resultLine > 0 && d.currentLine > 0
    ensures RowShows(HunkRow(d, h, k), h, k)
  {
    forall pane ensures PaneShows(HunkRow(d, h, k), h, k, pane) {
      HunkRowIn(d, h, k, pane);
    }
  }

  lemma {:induction false} HunkRowsExtend(d: Display, h: MergeHunk, count: nat)
    requires Bearing(d) && RestIsSame(d) && count <= RowCount(h)
    ensures var e := WithHunkRows(d, h, count);
            && Extends(d, e) && e.hunks == d.hunks && Bearing(e) && RestIsSame(e) && |e.rows| == |d.rows| + count
            && forall r | |d.rows| <= r < |e.rows| :: RowShows(e.rows[r], h, r - |d.rows|)
  {
    HunkRowsBear(d, h, count);
    if count > 0 {
      HunkRowsExtend(d, h, count - 1);
      var before := WithHunkRows(d, h, count - 1);
      HunkRowShows(before, h, count - 1);
      var row, e := HunkRow(before, h, count - 1), WithHunkRows(d, h, count);
      assert row.hunk == h.index;
      hide RowShows, HunkRow, SameEverywhere, RowBears;
      assert e.rows == before.rows + [row];
      forall r | |d.rows| <= r < |e.rows| ensures RowShows(e.rows[r], h, r - |d.rows|) {
        assert r == |before.rows| ==> e.rows[r] == row;
      }
    }
  }

  lemma {:induction false} RowCountIsLongest(h: MergeHunk)
    ensures Longest(h, RowCount(h))
  {
    var pane := if RowCount(h) == |LinesIn(h, IncomingPane)| then IncomingPane
                else if RowCount(h) == |LinesIn(h, ResultPane)| then ResultPane else CurrentPane;
    assert |LinesIn(h, pane)| == RowCount(h);
  }

  lemma {:induction false} HunkIsShown(d: Display, h: MergeHunk)
    requires Bearing(d) && RestIsSame(d)
    ensures var e := WithHunk(d, h); Extends(d, e) && Bearing(e) && RestIsSame(e) && HunkShown(e, h)
  {
    RowCountIsLongest(h);
    HunkRowsExtend(d, h, RowCount(h));
    hide RowShows, Longest, WithHunkRows, RowCount, SameEverywhere, RowBears;
    var e := WithHunk(d, h);
    if RowCount(h) > 0 {
      var x := |d.hunks|;
      assert e.hunks[x] == DisplayHunk(h.index, |d.rows|, |e.rows| - 1);
      assert ShowsHunkAt(e, h, x);
    }
  }

  lemma {:induction false} ExtendsChain(a: Display, b: Display, c: Display)
    requires Extends(a, b) && Extends(b, c)
    ensures Extends(a, c)
  {
  }

  lemma {:induction false} FromShows(d: Display, base: seq<Line>, hunks: seq<MergeHunk>, cursor: nat)
    requires HunksFit(hunks, base, cursor) && Bearing(d) && RestIsSame(d)
    ensures var e := DisplayFrom(d, base, hunks, cursor);
            Extends(d, e) && RestIsSame(e) && forall k | 0 <= k < |hunks| :: HunkShown(e, hunks[k])
    decreases |hunks|
  {
    hide Bearing, RestIsSame, HunkShown, WithUnchanged, WithHunk, Extends;
    if hunks == [] {
      UnchangedExtends(d, base[cursor..]);
    } else {
      var gap := WithUnchanged(d, base[cursor..hunks[0].baseStart]);
      UnchangedExtends(d, base[cursor..hunks[0].baseStart]);
      HunkIsShown(gap, hunks[0]);
      var e := WithHunk(gap, hunks[0]);
      FromShows(e, base, hunks[1..], hunks[0].baseEnd);
      var all := DisplayFrom(d, base, hunks, cursor);
      StillShown(e, all, hunks[0]);
      ExtendsChain(d, gap, e);
      ExtendsChain(d, e, all);
      forall k | 0 <= k < |hunks| ensures HunkShown(all, hunks[k]) {
        assert k > 0 ==> hunks[1..][k - 1] == hunks[k];
      }
    }
  }

  lemma {:induction false} NothingYet()
    ensures Bearing(EMPTY) && RestIsSame(EMPTY)
  {
  }

  lemma {:induction false} NotLater(h: MergeHunk, d: Display, e: Display)
    requires d.rows == [] && HunkShown(d, h)
    ensures HunkShown(e, h)
  {
    hide Longest;
  }

  /** The rows of every hunk put what each pane shows of it side by side, from the top and flagged; all other rows
      are the same in all panes. */
  lemma {:induction false} RowsSayWhatDiffers(model: Model, k: nat)
    requires HunksFit(model.hunks, model.baseLines, 0) && k < |model.hunks|
    ensures RestIsSame(DisplayOf(model)) && HunkShown(DisplayOf(model), model.hunks[k])
  {
    hide Bearing, RestIsSame, HunkShown, WithUnchanged, Extends, DisplayFrom;
    NothingYet();
    FromShows(EMPTY, model.baseLines, model.hunks, 0);
    var d := HunkDisplay(model);
    if d.rows == [] {
      RowsBear(EMPTY, model.baseLines, model.hunks, 0);
      UnchangedExtends(d, ResultLines(model, Recorded));
      NotLater(model.hunks[k], d, DisplayOf(model));
    }
  }
}
