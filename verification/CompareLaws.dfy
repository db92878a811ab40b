/** What the rows of a compare model show: the line diff of the two files, each changed run aligned, and on
    every row the changed spans its place in the hunk allows. */
module CompareLaws {
  import opened Basics
  import opened Text
  import opened EditScript
  import opened CommonSubsequence
  import opened ExactAlignment
  import opened LineDiff
  import opened LineDiffLaws
  import opened UniqueAnchors
  import opened CompareRows
  import HunkAlignment
  import Intraline

  // ----- Trimming the ends first changes nothing -----

  lemma {:induction false} OpsAfterEquals(b: Build, left: seq<Line>, right: seq<Line>, ops: seq<DiffOp>)
    requires |left| == |right|
    ensures WithOps(b, EqualPairs(left, right) + ops) == WithOps(WithEquals(b, left, right), ops)
  {
    if left == [] {
      assert EqualPairs(left, right) + ops == ops;
    } else {
      var n := |left| - 1;
      var last := [Equal(left[n], right[n])];
      assert EqualPairs(left, right) + ops == EqualPairs(left[..n], right[..n]) + (last + ops);
      OpsAfterEquals(b, left[..n], right[..n], last + ops);
      assert (last + ops)[1..] == ops;
    }
  }

  lemma {:induction false} RunEndsBefore(ops: seq<DiffOp>, rest: seq<DiffOp>)
    requires rest == [] || rest[0].Equal?
    ensures RunLength(ops + rest) == RunLength(ops)
  {
    if ops == [] {
      assert ops + rest == rest;
    } else {
      assert (ops + rest)[1..] == ops[1..] + rest;
      RunEndsBefore(ops[1..], rest);
    }
  }

  lemma {:induction false} OpsThenRest(b: Build, ops: seq<DiffOp>, rest: seq<DiffOp>)
    requires rest == [] || rest[0].Equal?
    ensures WithOps(b, ops + rest) == WithOps(WithOps(b, ops), rest)
    decreases |ops|
  {
    hide WithEqual, WithRun, LeftLines, RightLines, RunLength;
    if ops == [] {
      assert ops + rest == rest;
    } else if ops[0].Equal? {
      assert (ops + rest)[1..] == ops[1..] + rest;
      OpsThenRest(WithEqual(b, ops[0].text, ops[0].rightText), ops[1..], rest);
    } else {
      var n := RunLength(ops);
      RunEndsBefore(ops, rest);
      NonEmptyRun(ops);
      assert (ops + rest)[..n] == ops[..n] && (ops + rest)[n..] == ops[n..] + rest;
      OpsThenRest(WithRun(b, LeftLines(ops[..n]), RightLines(ops[..n])), ops[n..], rest);
    }
  }

  lemma {:induction false} NonEmptyRun(ops: seq<DiffOp>)
    requires ops != [] && !ops[0].Equal?
    ensures RunLength(ops) > 0
  {
  }

  lemma {:induction false} OpsThenEquals(b: Build, ops: seq<DiffOp>, left: seq<Line>, right: seq<Line>)
    requires |left| == |right|
    ensures WithOps(b, ops + EqualPairs(left, right)) == WithEquals(WithOps(b, ops), left, right)
  {
    var rest := EqualPairs(left, right);
    PairsAreEquals(left, right);
    OpsThenRest(b, ops, rest);
    OpsAfterEquals(WithOps(b, ops), left, right, []);
    assert rest + [] == rest;
  }

  lemma {:induction false} MiddleSlicesAgain(s: Slices, ignoreWhitespace: bool)
    requires s == WholeSlices(s.left, s.right) && Middle(s, ignoreWhitespace) == s
    ensures MiddleSlices(s.left, s.right, ignoreWhitespace) == s
  {
    hide Middle;
    assert s.left[0..|s.left|] == s.left && s.right[0..|s.right|] == s.right;
  }

  lemma {:induction false} MiddleSlicesAre(left: seq<Line>, right: seq<Line>, ignoreWhitespace: bool)
    ensures var m := Middle(WholeSlices(left, right), ignoreWhitespace);
            var s := MiddleSlices(left, right, ignoreWhitespace);
            && s.left == left[m.leftBegin..m.leftEnd] && s.right == right[m.rightBegin..m.rightEnd]
            && s == WholeSlices(s.left, s.right)
  {
    hide Middle;
  }

  /** The middle of a diff is diffed as it is on its own. */
  lemma {:induction false} MiddleDiffedAlone(left: seq<Line>, right: seq<Line>, ignoreWhitespace: bool)
    ensures var m := Middle(WholeSlices(left, right), ignoreWhitespace);
            LineDiffOps(left[m.leftBegin..m.leftEnd], right[m.rightBegin..m.rightEnd], ignoreWhitespace)
            == TopMiddleOps(m, ignoreWhitespace)
  {
    hide LineDiffOps, TopMiddleOps, Middle, AnchoredOps, ExactOps, MiddleSlices, BetweenEqualEnds, FitsTable;
    var s := MiddleSlices(left, right, ignoreWhitespace);
    MiddleSlicesAre(left, right, ignoreWhitespace);
    MiddleSlicesUntrimmed(left, right, ignoreWhitespace);
    MiddleSlicesAgain(s, ignoreWhitespace);
    DiffIsBetweenEnds(s.left, s.right, ignoreWhitespace);
    NoEnds(s, TopMiddleOps(s, ignoreWhitespace));
    TopMiddleIs(left, right, ignoreWhitespace);
    TopMiddleIs(s.left, s.right, ignoreWhitespace);
  }

  /** The rows of a model are those of the line diff of the two files, although the equal ends are taken off
      before it: the phantoms follow. */
  lemma {:induction false} BuildShowsDiff(left: string, right: string, ignoreWhitespace: bool)
    ensures BuildOf(left, right, ignoreWhitespace)
         == WithPhantom(WithOps(EMPTY, LineDiffOps(Aligned(left), Aligned(right), ignoreWhitespace)),
                        EndsInNewline(left), EndsInNewline(right))
  {
    hide WithPhantom, WithOps, WithEquals, Middle, LineDiffOps, TopMiddleOps, EqualPairs, Aligned;
    var l, r := Aligned(left), Aligned(right);
    var m := MiddleOfTexts(left, right, ignoreWhitespace);
    DiffIsBetweenEnds(l, r, ignoreWhitespace);
    MiddleDiffedAlone(l, r, ignoreWhitespace);
    BuildOfPieces(l, r, m, TopMiddleOps(m, ignoreWhitespace));
  }

  lemma {:induction false} BuildOfPieces(l: seq<Line>, r: seq<Line>, m: Slices, middle: seq<DiffOp>)
    requires Matching(m) && m.left == l && m.right == r
    ensures WithOps(EMPTY, BetweenEqualEnds(WholeSlices(l, r), m, middle))
         == WithEquals(WithOps(WithEquals(EMPTY, l[..m.leftBegin], r[..m.rightBegin]), middle), l[m.leftEnd..],
                       r[m.rightEnd..])
  {
    hide WithOps, WithEquals, EqualPairs;
    assert l[0..m.leftBegin] == l[..m.leftBegin] && r[0..m.rightBegin] == r[..m.rightBegin];
    assert l[m.leftEnd..|l|] == l[m.leftEnd..] && r[m.rightEnd..|r|] == r[m.rightEnd..];
    var front, back := EqualPairs(l[..m.leftBegin], r[..m.rightBegin]), EqualPairs(l[m.leftEnd..], r[m.rightEnd..]);
    assert front + middle + back == front + (middle + back);
    OpsAfterEquals(EMPTY, l[..m.leftBegin], r[..m.rightBegin], middle + back);
    OpsThenEquals(WithEquals(EMPTY, l[..m.leftBegin], r[..m.rightBegin]), middle, l[m.leftEnd..], r[m.rightEnd..]);
  }

  // ----- The rows of a run -----

  /** The alignment step a row shows. */
  function KindOf(row: CompareRow): HunkAlignment.Kind {
    match row.kind
    case Deleted => HunkAlignment.Delete
    case Added => HunkAlignment.Insert
    case _ => HunkAlignment.Pair
  }

  function Kinds(rows: seq<CompareRow>): (kinds: seq<HunkAlignment.Kind>)
    ensures |kinds| == |rows| && forall k | 0 <= k < |rows| :: kinds[k] == KindOf(rows[k])
  {
    if rows == [] then [] else Kinds(rows[..|rows| - 1]) + [KindOf(rows[|rows| - 1])]
  }

  /** The cells a hunk has left to spend on refining once it has reached row `r`. */
  function BudgetAt(rows: seq<CompareRow>, r: nat): nat
    requires r <= |rows|
  {
    Intraline.HunkCells(RowTexts(rows[..r]), Intraline.MAX_HUNK_INTRALINE_TOTAL_CELLS).1
  }

  /** Every row is marked with its changed spans, as far as the budget lasts. */
  ghost predicate MarksFit(rows: seq<CompareRow>) {
    forall r | 0 <= r < |rows| :: rows[r].marks == Intraline.ChangedSpans(RowTextOf(rows[r]), BudgetAt(rows, r))
  }

  /** The rows of a hunk are the alignment of the lines they bear. */
  ghost predicate RowsAlign(rows: seq<CompareRow>) {
    && Kinds(rows) == HunkAlignment.Alignment(LeftTexts(rows), RightTexts(rows))
    && MarksFit(rows)
  }

  lemma {:induction false} KindsMore(rows: seq<CompareRow>, row: CompareRow)
    ensures Kinds(rows + [row]) == Kinds(rows) + [KindOf(row)]
  {
  }

  lemma {:induction false} TextsMore(rows: seq<CompareRow>, row: CompareRow)
    ensures LeftTexts(rows + [row]) == LeftTexts(rows) + LeftOfRow(row)
    ensures RightTexts(rows + [row]) == RightTexts(rows) + RightOfRow(row)
  {
    assert (rows + [row])[..|rows|] == rows;
  }

  lemma {:induction false} MarksMore(rows: seq<CompareRow>, row: CompareRow)
    requires MarksFit(rows)
    requires row.marks == Intraline.ChangedSpans(RowTextOf(row), BudgetAt(rows, |rows|))
    ensures MarksFit(rows + [row])
    ensures BudgetAt(rows + [row], |rows| + 1) == Intraline.BudgetAfter(RowTextOf(row), BudgetAt(rows, |rows|))
  {
    hide Intraline.HunkCells, Intraline.ChangedSpans, Intraline.BudgetAfter, RowTexts;
    var all := rows + [row];
    forall r | 0 <= r < |all|
      ensures all[r].marks == Intraline.ChangedSpans(RowTextOf(all[r]), BudgetAt(all, r)) {
      assert r < |rows| ==> all[..r] == rows[..r];
      assert r == |rows| ==> all[..r] == rows[..r];
    }
    assert all[..|all|] == all && rows[..|rows|] == rows;
    RowTextsMore(rows, row);
    Intraline.HunkCellsMore(RowTexts(rows), RowTextOf(row), Intraline.MAX_HUNK_INTRALINE_TOTAL_CELLS);
  }

  lemma {:induction false} NextRowShows(b: Build, kind: HunkAlignment.Kind, deleted: seq<Line>, inserted: seq<Line>,
                                        hunk: nat, budget: nat)
    requires TakesLeft(kind) <= |deleted| && TakesRight(kind) <= |inserted| && b.leftLine > 0 && b.rightLine > 0
    ensures var row := NextRow(b, kind, deleted, inserted, hunk, budget);
            && KindOf(row) == kind
            && LeftOfRow(row) == deleted[..TakesLeft(kind)] && RightOfRow(row) == inserted[..TakesRight(kind)]
            && row.marks == Intraline.ChangedSpans(RowTextOf(row), budget)
  {
    hide Intraline.ChangedSpans;
  }

  /** `rows` are `done` and then, marked, the rows of the steps `kinds` over these lines. */
  ghost predicate Extends(done: seq<CompareRow>, rows: seq<CompareRow>, kinds: seq<HunkAlignment.Kind>,
                          deleted: seq<Line>, inserted: seq<Line>) {
    && Kinds(rows) == Kinds(done) + kinds
    && LeftTexts(rows) == LeftTexts(done) + deleted
    && RightTexts(rows) == RightTexts(done) + inserted
    && MarksFit(rows)
  }

  lemma {:induction false} ExtendsCons(done: seq<CompareRow>, row: CompareRow, rows: seq<CompareRow>,
                                       kinds: seq<HunkAlignment.Kind>, deleted: seq<Line>, inserted: seq<Line>)
    requires kinds != [] && TakesLeft(kinds[0]) <= |deleted| && TakesRight(kinds[0]) <= |inserted|
    requires KindOf(row) == kinds[0]
    requires LeftOfRow(row) == deleted[..TakesLeft(kinds[0])] && RightOfRow(row) == inserted[..TakesRight(kinds[0])]
    requires Extends(done + [row], rows, kinds[1..], deleted[TakesLeft(kinds[0])..], inserted[TakesRight(kinds[0])..])
    ensures Extends(done, rows, kinds, deleted, inserted)
  {
    hide MarksFit, Kinds, LeftTexts, RightTexts, LeftOfRow, RightOfRow, KindOf;
    KindsMore(done, row);
    TextsMore(done, row);
    Onwards(LeftTexts(done), deleted, TakesLeft(kinds[0]));
    Onwards(RightTexts(done), inserted, TakesRight(kinds[0]));
    assert kinds == [kinds[0]] + kinds[1..];
  }

  lemma {:induction false} ExtendsNothing(rows: seq<CompareRow>)
    requires MarksFit(rows)
    ensures Extends(rows, rows, [], [], [])
  {
  }

  lemma {:induction false} RunStep(b: Build, kinds: seq<HunkAlignment.Kind>, deleted: seq<Line>, inserted: seq<Line>,
                                   hunk: nat, budget: nat)
    requires kinds != [] && HunkAlignment.ConsumesOnce(kinds, |deleted|, |inserted|)
    ensures var l, r := TakesLeft(kinds[0]), TakesRight(kinds[0]);
            && l <= |deleted| && r <= |inserted|
            && HunkAlignment.ConsumesOnce(kinds[1..], |deleted| - l, |inserted| - r)
            && var row := NextRow(b, kinds[0], deleted, inserted, hunk, budget);
            WithRunRows(b, kinds, deleted, inserted, hunk, budget)
            == WithRunRows(WithRow(b, row), kinds[1..], deleted[l..], inserted[r..], hunk,
                           Intraline.BudgetAfter(RowTextOf(row), budget))
  {
    hide NextRow, Intraline.BudgetAfter, WithRow;
  }

  /** The rows from `start` on are a run's so far; the rest follow the alignment. */
  lemma {:induction false} RunRowsAlign(b: Build, kinds: seq<HunkAlignment.Kind>, deleted: seq<Line>,
                                        inserted: seq<Line>, hunk: nat, budget: nat, start: nat)
    requires HunkAlignment.ConsumesOnce(kinds, |deleted|, |inserted|) && start <= |b.rows|
    requires b.leftLine > 0 && b.rightLine > 0
    requires MarksFit(b.rows[start..]) && budget == BudgetAt(b.rows[start..], |b.rows| - start)
    ensures var c := WithRunRows(b, kinds, deleted, inserted, hunk, budget);
            && |c.rows| >= |b.rows| && c.rows[..|b.rows|] == b.rows
            && Extends(b.rows[start..], c.rows[start..], kinds, deleted, inserted)
    decreases |kinds|
  {
    hide Extends, MarksFit, BudgetAt, NextRow, LeftOfRow, RightOfRow, KindOf, WithRunRows, Intraline.BudgetAfter,
         Intraline.ChangedSpans, HunkAlignment.ConsumesOnce;
    if kinds == [] {
      NoStepsLeft(b, deleted, inserted, hunk, budget);
      ExtendsNothing(b.rows[start..]);
    } else {
      RunStep(b, kinds, deleted, inserted, hunk, budget);
      var l, r := TakesLeft(kinds[0]), TakesRight(kinds[0]);
      var row := NextRow(b, kinds[0], deleted, inserted, hunk, budget);
      NextRowShows(b, kinds[0], deleted, inserted, hunk, budget);
      var next := WithRow(b, row);
      DropThenAppend(b.rows, row, start);
      MarksMore(b.rows[start..], row);
      RunRowsAlign(next, kinds[1..], deleted[l..], inserted[r..], hunk, Intraline.BudgetAfter(RowTextOf(row), budget),
                   start);
      var c := WithRunRows(b, kinds, deleted, inserted, hunk, budget);
      assert c.rows[..|b.rows|] == c.rows[..|next.rows|][..|b.rows|];
      ExtendsCons(b.rows[start..], row, c.rows[start..], kinds, deleted, inserted);
    }
  }

  lemma {:induction false} NoStepsLeft(b: Build, deleted: seq<Line>, inserted: seq<Line>, hunk: nat, budget: nat)
    requires HunkAlignment.ConsumesOnce([], |deleted|, |inserted|)
    ensures deleted == [] && inserted == [] && WithRunRows(b, [], deleted, inserted, hunk, budget) == b
  {
  }

  lemma {:induction false} NoRowsFit()
    ensures MarksFit([]) && Kinds([]) == [] && LeftTexts([]) == [] && RightTexts([]) == []
    ensures BudgetAt([], 0) == Intraline.MAX_HUNK_INTRALINE_TOTAL_CELLS
  {
  }

  lemma {:induction false} ExtendsFromNothing(rows: seq<CompareRow>, deleted: seq<Line>, inserted: seq<Line>)
    requires Extends([], rows, HunkAlignment.Alignment(deleted, inserted), deleted, inserted)
    ensures RowsAlign(rows) && LeftTexts(rows) == deleted && RightTexts(rows) == inserted
  {
    hide MarksFit, HunkAlignment.Alignment;
    var kinds := HunkAlignment.Alignment(deleted, inserted);
    assert [] + deleted == deleted && [] + inserted == inserted && [] + kinds == kinds;
  }

  lemma {:induction false} RunAligns(b: Build, deleted: seq<Line>, inserted: seq<Line>)
    requires b.leftLine > 0 && b.rightLine > 0
    ensures var rows := WithAlignedRows(b, deleted, inserted).rows;
            && |rows| >= |b.rows| && rows[..|b.rows|] == b.rows && RowsAlign(rows[|b.rows|..])
            && LeftTexts(rows[|b.rows|..]) == deleted && RightTexts(rows[|b.rows|..]) == inserted
  {
    hide MarksFit, LeftTexts, RightTexts, BudgetAt, WithRunRows, HunkAlignment.Alignment, Extends, RowsAlign,
         HunkAlignment.ConsumesOnce;
    HunkAlignment.AlignmentConsumesOnce(deleted, inserted);
    NoRowsFit();
    var none := b.rows[|b.rows|..];
    assert none == [];
    RunRowsAlign(b, HunkAlignment.Alignment(deleted, inserted), deleted, inserted, |b.hunks|,
                 Intraline.MAX_HUNK_INTRALINE_TOTAL_CELLS, |b.rows|);
    ExtendsFromNothing(WithAlignedRows(b, deleted, inserted).rows[|b.rows|..], deleted, inserted);
  }

  // ----- Every hunk -----

  ghost predicate HunkAligns(rows: seq<CompareRow>, hunk: CompareHunk) {
    hunk.startRow <= hunk.endRow < |rows| && RowsAlign(rows[hunk.startRow..hunk.endRow + 1])
  }

  ghost predicate HunksAlign(b: Build) {
    forall h | 0 <= h < |b.hunks| :: HunkAligns(b.rows, b.hunks[h])
  }

  lemma {:induction false} SliceOfPrefix<T>(all: seq<T>, n: nat, begin: nat, end: nat)
    requires begin <= end <= n <= |all|
    ensures all[..n][begin..end] == all[begin..end]
  {
  }

  lemma {:induction false} HunkStaysAligned(rows: seq<CompareRow>, hunk: CompareHunk, all: seq<CompareRow>)
    requires HunkAligns(rows, hunk) && |rows| <= |all| && all[..|rows|] == rows
    ensures HunkAligns(all, hunk)
  {
    hide RowsAlign;
    SliceOfPrefix(all, |rows|, hunk.startRow, hunk.endRow + 1);
  }

  lemma {:induction false} HunksStayAligned(b: Build, c: Build)
    requires HunksAlign(b) && b.hunks == c.hunks && |b.rows| <= |c.rows| && c.rows[..|b.rows|] == b.rows
    ensures HunksAlign(c)
  {
    hide HunkAligns;
    forall h | 0 <= h < |c.hunks| ensures HunkAligns(c.rows, c.hunks[h]) {
      HunkStaysAligned(b.rows, b.hunks[h], c.rows);
    }
  }

  lemma {:induction false} RunKeepsAligned(b: Build, deleted: seq<Line>, inserted: seq<Line>)
    requires HunksAlign(b) && b.leftLine > 0 && b.rightLine > 0 && |deleted| + |inserted| > 0
    ensures HunksAlign(WithRun(b, deleted, inserted))
  {
    hide RowsAlign, WithAlignedRows;
    var more := RunAddsRows(b, deleted, inserted);
    var c := WithRun(b, deleted, inserted);
    RunAligns(b, deleted, inserted);
    forall h | 0 <= h < |c.hunks| ensures HunkAligns(c.rows, c.hunks[h]) {
      if h < |b.hunks| {
        assert HunkAligns(b.rows, b.hunks[h]);
        HunkStaysAligned(b.rows, b.hunks[h], c.rows);
      } else {
        assert c.rows[|b.rows|..|c.rows| - 1 + 1] == c.rows[|b.rows|..];
      }
    }
  }

  lemma {:induction false} OpsAlign(b: Build, ops: seq<DiffOp>)
    requires HunksAlign(b) && Bearing(b)
    ensures HunksAlign(WithOps(b, ops))
    decreases |ops|
  {
    hide HunksAlign, WithRun, LeftLines, RightLines, AllBear;
    if ops == [] {
    } else if ops[0].Equal? {
      var c := WithEqual(b, ops[0].text, ops[0].rightText);
      HunksStayAligned(b, c);
      EqualBears(b, ops[0].text, ops[0].rightText);
      OpsAlign(c, ops[1..]);
    } else {
      var n := RunLength(ops);
      var l, r := LeftLines(ops[..n]), RightLines(ops[..n]);
      RunHasLines(ops[..n]);
      RunKeepsAligned(b, l, r);
      RunBears(b, l, r);
      OpsAlign(WithRun(b, l, r), ops[n..]);
    }
  }

  lemma {:induction false} EqualBears(b: Build, left: Line, right: Line)
    requires Bearing(b)
    ensures Bearing(WithEqual(b, left, right))
  {
  }

  /** The rows before a phantom that only one side has. */
  function WithoutPhantom(left: string, right: string, ignoreWhitespace: bool): (n: nat)
    ensures n <= |BuildOf(left, right, ignoreWhitespace).rows|
  {
    var n := |BuildOf(left, right, ignoreWhitespace).rows|;
    if EndsInNewline(left) != EndsInNewline(right) && n > 0 then n - 1 else n
  }

  /** A hunk's rows, as far as they are before row `n`, are the alignment of the lines they bear. */
  ghost predicate HunkAlignsUpTo(rows: seq<CompareRow>, hunk: CompareHunk, n: nat) {
    && hunk.startRow <= hunk.endRow + 1 && hunk.startRow <= n <= |rows|
    && RowsAlign(rows[hunk.startRow..Min(hunk.endRow + 1, n)])
  }

  lemma {:induction false} NoRowsAlign()
    ensures RowsAlign([])
  {
    NoRowsFit();
    hide MarksFit, Kinds, LeftTexts, RightTexts;
  }

  lemma {:induction false} AlignedUpTo(rows: seq<CompareRow>, hunk: CompareHunk, all: seq<CompareRow>, end: nat)
    requires HunkAligns(rows, hunk) && |rows| <= |all| && all[..|rows|] == rows
    requires end == hunk.endRow || hunk.endRow + 1 == |rows| == end
    ensures HunkAlignsUpTo(all, hunk.(endRow := end), |rows|)
  {
    hide RowsAlign;
    SliceOfPrefix(all, |rows|, hunk.startRow, hunk.endRow + 1);
  }

  /** A phantom row of one side comes last, and extends the last hunk or is one of its own. */
  lemma {:induction false} PhantomShape(b: Build, left: bool, right: bool, h: nat)
    requires h < |WithPhantom(b, left, right).hunks|
    ensures var c := WithPhantom(b, left, right);
            && |c.rows| == |b.rows| + (if left || right then 1 else 0) && c.rows[..|b.rows|] == b.rows
            && (left == right ==> c.hunks == b.hunks)
            && (h < |b.hunks| ==>
                  || c.hunks[h] == b.hunks[h]
                  || (b.hunks[h].endRow + 1 == |b.rows| && c.hunks[h] == b.hunks[h].(endRow := |b.rows|)))
            && (h >= |b.hunks| ==> c.hunks[h] == CompareHunk(|b.hunks|, |b.rows|, |b.rows|))
  {
  }

  lemma {:induction false} AlignedWhole(rows: seq<CompareRow>, hunk: CompareHunk)
    requires HunkAligns(rows, hunk)
    ensures HunkAlignsUpTo(rows, hunk, |rows|)
  {
    hide RowsAlign;
  }

  lemma {:induction false} OwnHunkAligns(rows: seq<CompareRow>, index: nat, n: nat)
    requires n <= |rows|
    ensures HunkAlignsUpTo(rows, CompareHunk(index, n, n), n)
  {
    hide RowsAlign;
    NoRowsAlign();
    assert rows[n..n] == [];
  }

  lemma {:induction false} PhantomAligns(b: Build, left: bool, right: bool, h: nat)
    requires HunksAlign(b) && h < |WithPhantom(b, left, right).hunks|
    ensures var c := WithPhantom(b, left, right);
            var n := if left != right then |c.rows| - 1 else |c.rows|;
            n >= 0 && HunkAlignsUpTo(c.rows, c.hunks[h], n)
  {
    hide RowsAlign, WithPhantom, HunkAligns, HunkAlignsUpTo;
    var c := WithPhantom(b, left, right);
    PhantomShape(b, left, right, h);
    if h < |b.hunks| {
      assert HunkAligns(b.rows, b.hunks[h]);
      if left == right {
        HunkStaysAligned(b.rows, b.hunks[h], c.rows);
        AlignedWhole(c.rows, b.hunks[h]);
      } else {
        AlignedUpTo(b.rows, b.hunks[h], c.rows, c.hunks[h].endRow);
      }
    } else {
      OwnHunkAligns(c.rows, |b.hunks|, |b.rows|);
    }
  }

  lemma {:induction false} NothingAligned()
    ensures HunksAlign(EMPTY) && Bearing(EMPTY) && Shows(EMPTY, [], [])
  {
  }

  /** Every hunk pairs its lines as the alignment of its deleted with its inserted lines says; a phantom that only
      one side has comes after them. */
  lemma {:induction false} HunksAlignTheirLines(left: string, right: string, ignoreWhitespace: bool, h: nat)
    requires h < |BuildOf(left, right, ignoreWhitespace).hunks|
    ensures var b := BuildOf(left, right, ignoreWhitespace);
            HunkAlignsUpTo(b.rows, b.hunks[h], WithoutPhantom(left, right, ignoreWhitespace))
  {
    hide HunksAlign, HunkAlignsUpTo, WithOps, WithPhantom, LineDiffOps, BuildOf, Aligned, Bearing;
    var ops := LineDiffOps(Aligned(left), Aligned(right), ignoreWhitespace);
    BuildShowsDiff(left, right, ignoreWhitespace);
    NothingAligned();
    OpsAlign(EMPTY, ops);
    PhantomAligns(WithOps(EMPTY, ops), EndsInNewline(left), EndsInNewline(right), h);
  }

  // ----- The marks of every row -----

  lemma {:induction false} SameStart<T>(all: seq<T>, begin: nat, end: nat, k: nat)
    requires begin + k <= end <= |all|
    ensures all[begin..end][..k] == all[begin..][..k]
  {
  }

  lemma {:induction false} MarksInHunk(rows: seq<CompareRow>, hunk: CompareHunk, n: nat, r: nat)
    requires HunkAlignsUpTo(rows, hunk, n) && hunk.startRow <= r <= hunk.endRow && r < n
    ensures rows[r].marks == Intraline.ChangedSpans(RowTextOf(rows[r]),
                                                    BudgetAt(rows[hunk.startRow..], r - hunk.startRow))
  {
    hide Kinds, LeftTexts, RightTexts, Intraline.ChangedSpans, Intraline.HunkCells, RowTexts, HunkAlignment.Alignment;
    var body := rows[hunk.startRow..Min(hunk.endRow + 1, n)];
    assert body[r - hunk.startRow] == rows[r];
    SameStart(rows, hunk.startRow, Min(hunk.endRow + 1, n), r - hunk.startRow);
  }

  lemma {:induction false} NoTextNoMarks(row: CompareRow, budget: nat)
    requires row.leftText == "" && row.rightText == "" && (row.kind.Added? || row.kind.Deleted?)
    ensures Intraline.ChangedSpans(RowTextOf(row), budget) == NO_MARKS
  {
  }

  /** The row of a phantom that only one side has. */
  lemma {:induction false} PhantomRow(left: string, right: string, ignoreWhitespace: bool)
    requires EndsInNewline(left) != EndsInNewline(right)
    ensures var rows := BuildOf(left, right, ignoreWhitespace).rows;
            && |rows| > 0
            && var row := rows[|rows| - 1];
            row.leftText == "" && row.rightText == "" && row.marks == NO_MARKS && (row.kind.Added? || row.kind.Deleted?)
  {
    hide WithSuffix, MiddleOfTexts;
  }

  /** Every row of a hunk is marked with its changed spans, refined as far as the cells last that the hunk's
      earlier rows left; an unchanged row is not marked. */
  lemma {:induction false} RowsAreMarked(left: string, right: string, ignoreWhitespace: bool, r: nat)
    requires r < |BuildOf(left, right, ignoreWhitespace).rows|
    ensures var b := BuildOf(left, right, ignoreWhitespace);
            var row := b.rows[r];
            if row.hunk == -1 then row.kind.Unchanged? && row.marks == NO_MARKS
            else
              && 0 <= row.hunk < |b.hunks| && b.hunks[row.hunk].startRow <= r
              && var start := b.hunks[row.hunk].startRow;
              row.marks == Intraline.ChangedSpans(RowTextOf(row), BudgetAt(b.rows[start..], r - start))
  {
    hide BuildOf, HunkAlignsUpTo, Intraline.ChangedSpans, BudgetAt, HunkShaped, Covers, Apart;
    var b := BuildOf(left, right, ignoreWhitespace);
    var row := b.rows[r];
    BuildIsPlaced(left, right, ignoreWhitespace);
    BuildBears(left, right, ignoreWhitespace);
    assert RowPlaced(row, r, b.hunks) && BearsAsKind(row);
    if row.hunk != -1 {
      var start := b.hunks[row.hunk].startRow;
      if r < WithoutPhantom(left, right, ignoreWhitespace) {
        HunksAlignTheirLines(left, right, ignoreWhitespace, row.hunk);
        MarksInHunk(b.rows, b.hunks[row.hunk], WithoutPhantom(left, right, ignoreWhitespace), r);
      } else {
        PhantomRow(left, right, ignoreWhitespace);
        NoTextNoMarks(row, BudgetAt(b.rows[start..], r - start));
      }
    }
  }

  // ----- The unchanged rows -----

  /** The line numbers of the unchanged rows. */
  function PairedRows(rows: seq<CompareRow>): seq<Pair> {
    if rows == [] then []
    else
      var row := rows[|rows| - 1];
      PairedRows(rows[..|rows| - 1]) + if row.kind.Unchanged? then [(row.leftLine, row.rightLine)] else []
  }

  lemma {:induction false} PairedMore(rows: seq<CompareRow>, row: CompareRow)
    ensures PairedRows(rows + [row])
         == PairedRows(rows) + if row.kind.Unchanged? then [(row.leftLine, row.rightLine)] else []
  {
    assert (rows + [row])[..|rows|] == rows;
  }

  lemma {:induction false} NonePaired(rows: seq<CompareRow>, more: seq<CompareRow>, hunk: int)
    requires NamesHunk(more, hunk)
    ensures PairedRows(rows + more) == PairedRows(rows)
  {
    if more == [] {
      assert rows + more == rows;
    } else {
      var n := |more| - 1;
      NonePaired(rows, more[..n], hunk);
      assert rows + more == rows + more[..n] + [more[n]];
      PairedMore(rows + more[..n], more[n]);
    }
  }

  lemma {:induction false} OpsPair(b: Build, left: seq<Line>, right: seq<Line>, ops: seq<DiffOp>)
    requires Shows(b, left, right)
    ensures PairedRows(WithOps(b, ops).rows) == PairedRows(b.rows) + EqualPositions(ops, |left| + 1, |right| + 1)
    decreases |ops|
  {
    hide EqualPositions, PairedRows, WithRun, LeftLines, RightLines, LeftTexts, RightTexts, LeftNumbered, RightNumbered;
    if ops == [] {
      NoEqualPositions([], |left| + 1, |right| + 1);
    } else if ops[0].Equal? {
      var l, r := ops[0].text, ops[0].rightText;
      ShowsEqual(b, left, right, l, r);
      PairedMore(b.rows, EqualRow(l, r, b.leftLine, b.rightLine));
      OpsPair(WithEqual(b, l, r), left + [l], right + [r], ops[1..]);
      EqualPosition(ops, |left| + 1, |right| + 1);
    } else {
      var n := RunLength(ops);
      var l, r := LeftLines(ops[..n]), RightLines(ops[..n]);
      ShowsRun(b, left, right, l, r);
      RunPairsNothing(b, ops[..n]);
      OpsPair(WithRun(b, l, r), left + l, right + r, ops[n..]);
      NonEqualPositions(ops, n, |left| + 1, |right| + 1);
    }
  }

  lemma {:induction false} RunPairsNothing(b: Build, ops: seq<DiffOp>)
    requires ops != [] && !ops[0].Equal?
    ensures PairedRows(WithRun(b, LeftLines(ops), RightLines(ops)).rows) == PairedRows(b.rows)
  {
    hide PairedRows, LeftLines, RightLines, WithAlignedRows;
    RunHasLines(ops);
    var more := RunAddsRows(b, LeftLines(ops), RightLines(ops));
    NonePaired(b.rows, more, |b.hunks|);
  }

  /** The unchanged rows are exactly the pairs of lines the line diff keeps, and the phantoms where both files
      have one. */
  lemma {:induction false} UnchangedRowsAreTheDiff(left: string, right: string, ignoreWhitespace: bool)
    ensures var l, r := Aligned(left), Aligned(right);
            PairedRows(BuildOf(left, right, ignoreWhitespace).rows)
            == EqualPositions(LineDiffOps(l, r, ignoreWhitespace), 1, 1)
               + if EndsInNewline(left) && EndsInNewline(right) then [(|l| + 1, |r| + 1)] else []
  {
    hide EqualPositions, PairedRows, WithOps, LineDiffOps, BuildOf, Aligned, LeftTexts, RightTexts, LeftNumbered,
         RightNumbered;
    var l, r := Aligned(left), Aligned(right);
    var ops := LineDiffOps(l, r, ignoreWhitespace);
    BuildShowsDiff(left, right, ignoreWhitespace);
    NothingAligned();
    OpsPair(EMPTY, [], [], ops);
    NothingPaired(EqualPositions(ops, 1, 1));
    LineDiffValid(l, r, ignoreWhitespace);
    ShowsOps(EMPTY, [], [], ops);
    assert [] + LeftLines(ops) == l && [] + RightLines(ops) == r;
    var b := WithOps(EMPTY, ops);
    var c := WithPhantom(b, EndsInNewline(left), EndsInNewline(right));
    if c.rows != b.rows {
      PairedMore(b.rows, c.rows[|b.rows|]);
    }
  }

  lemma {:induction false} NothingPaired(pairs: seq<Pair>)
    ensures PairedRows([]) + pairs == pairs
  {
  }
}
