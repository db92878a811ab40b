/** Assembling the compare model: the rows that show two files side by side, and the hunks over them. */
module CompareRows {
  import opened Basics
  import opened Text
  import opened EditScript
  import HunkAlignment
  import Intraline
  import CommonSubsequence
  import opened LineDiff
  import opened UniqueAnchors

  type RowKind = Intraline.RowKind

  datatype CompareRow = CompareRow(leftText: Line, rightText: Line, leftLine: nat, rightLine: nat,
                                   kind: RowKind, hunk: int, marks: Intraline.Marks)

  datatype CompareHunk = CompareHunk(index: nat, startRow: nat, endRow: nat)

  /** A build under way: its rows and hunks so far, and the next line number of each side. */
  datatype Build = Build(rows: seq<CompareRow>, hunks: seq<CompareHunk>, leftLine: nat, rightLine: nat)

  const NO_MARKS := Intraline.Marks([], [])

  // ----- Specification of the build -----

  function EqualRow(left: Line, right: Line, leftLine: nat, rightLine: nat): CompareRow {
    CompareRow(left, right, leftLine, rightLine, Intraline.Unchanged, -1, NO_MARKS)
  }

  function WithEqual(b: Build, left: Line, right: Line): Build {
    b.(rows := b.rows + [EqualRow(left, right, b.leftLine, b.rightLine)], leftLine := b.leftLine + 1,
       rightLine := b.rightLine + 1)
  }

  function WithEquals(b: Build, left: seq<Line>, right: seq<Line>): Build
    requires |left| == |right|
  {
    if left == [] then b
    else WithEqual(WithEquals(b, left[..|left| - 1], right[..|left| - 1]), left[|left| - 1], right[|left| - 1])
  }

  /** One row of a changed run. */
  function ChangedRow(kind: HunkAlignment.Kind, left: Line, right: Line, leftLine: nat, rightLine: nat, hunk: nat,
                      budget: nat): CompareRow {
    match kind
    case Pair =>
      CompareRow(left, right, leftLine, rightLine, Intraline.Modified, hunk,
                 Intraline.ChangedSpans(Intraline.RowText(Intraline.Modified, left, right), budget))
    case Delete =>
      CompareRow(left, "", leftLine, 0, Intraline.Deleted, hunk,
                 Intraline.ChangedSpans(Intraline.RowText(Intraline.Deleted, left, ""), budget))
    case Insert =>
      CompareRow("", right, 0, rightLine, Intraline.Added, hunk,
                 Intraline.ChangedSpans(Intraline.RowText(Intraline.Added, "", right), budget))
  }

  function RowTextOf(row: CompareRow): Intraline.RowText {
    Intraline.RowText(row.kind, row.leftText, row.rightText)
  }

  /** A run's rows, with the intraline budget left when the run has reached them. */
  function WithRunRows(b: Build, kinds: seq<HunkAlignment.Kind>, deleted: seq<Line>, inserted: seq<Line>, hunk: nat,
                       budget: nat): Build
    requires HunkAlignment.ConsumesOnce(kinds, |deleted|, |inserted|)
    decreases |kinds|
  {
    if kinds == [] then b
    else
      var row := NextRow(b, kinds[0], deleted, inserted, hunk, budget);
      WithRunRows(WithRow(b, row), kinds[1..], deleted[TakesLeft(kinds[0])..], inserted[TakesRight(kinds[0])..], hunk,
                  Intraline.BudgetAfter(RowTextOf(row), budget))
  }

  /** The row the next alignment step makes of the first lines left. */
  function NextRow(b: Build, kind: HunkAlignment.Kind, deleted: seq<Line>, inserted: seq<Line>, hunk: nat,
                   budget: nat): CompareRow
    requires TakesLeft(kind) <= |deleted| && TakesRight(kind) <= |inserted|
  {
    ChangedRow(kind, if kind.Insert? then "" else deleted[0], if kind.Delete? then "" else inserted[0],
               b.leftLine, b.rightLine, hunk, budget)
  }

  /** A row added: each side it bears a line of moves on. */
  function WithRow(b: Build, row: CompareRow): Build {
    Build(b.rows + [row], b.hunks, b.leftLine + Bears(row.leftLine), b.rightLine + Bears(row.rightLine))
  }

  function TakesLeft(kind: HunkAlignment.Kind): nat { if kind.Insert? then 0 else 1 }

  function TakesRight(kind: HunkAlignment.Kind): nat { if kind.Delete? then 0 else 1 }

  /** The rows of a maximal run of changed lines. */
  function WithAlignedRows(b: Build, deleted: seq<Line>, inserted: seq<Line>): Build {
    HunkAlignment.AlignmentConsumesOnce(deleted, inserted);
    WithRunRows(b, HunkAlignment.Alignment(deleted, inserted), deleted, inserted, |b.hunks|,
                Intraline.MAX_HUNK_INTRALINE_TOTAL_CELLS)
  }

  /** A maximal run of changed lines: its rows, and the hunk over them. */
  function WithRun(b: Build, deleted: seq<Line>, inserted: seq<Line>): Build {
    var r := WithAlignedRows(b, deleted, inserted);
    r.(hunks := b.hunks + [CompareHunk(|b.hunks|, |b.rows|, if |r.rows| > 0 then |r.rows| - 1 else 0)])
  }

  /** How many operations the changed run at the front has. */
  function RunLength(ops: seq<DiffOp>): (n: nat)
    ensures n <= |ops| && (n < |ops| ==> ops[n].Equal?)
    ensures forall k | 0 <= k < n :: !ops[k].Equal?
  {
    if ops == [] || ops[0].Equal? then 0 else 1 + RunLength(ops[1..])
  }

  function WithOps(b: Build, ops: seq<DiffOp>): Build
    decreases |ops|
  {
    if ops == [] then b
    else if ops[0].Equal? then WithOps(WithEqual(b, ops[0].text, ops[0].rightText), ops[1..])
    else
      var n := RunLength(ops);
      WithOps(WithRun(b, LeftLines(ops[..n]), RightLines(ops[..n])), ops[n..])
  }

  /** The row of the trailing phantoms: unchanged when both sides have one, else a change that joins the
      hunk right before it or is a hunk of its own. */
  function WithPhantom(b: Build, left: bool, right: bool): Build {
    if !left && !right then b
    else if left && right then WithEqual(b, "", "")
    else
      var at := |b.rows|;
      var joins := b.hunks != [] && b.hunks[|b.hunks| - 1].endRow + 1 == at;
      var hunks := if joins then b.hunks[|b.hunks| - 1 := b.hunks[|b.hunks| - 1].(endRow := at)]
                   else b.hunks + [CompareHunk(|b.hunks|, at, at)];
      var row := CompareRow("", "", if left then b.leftLine else 0, if right then b.rightLine else 0,
                            if left then Intraline.Deleted else Intraline.Added, hunks[|hunks| - 1].index, NO_MARKS);
      Build(b.rows + [row], hunks, b.leftLine + (if left then 1 else 0), b.rightLine + (if right then 1 else 0))
  }

  /** The lines without the phantom. */
  function Aligned(text: string): seq<Line> {
    var lines := SplitLines(text);
    if EndsInNewline(text) && lines[|lines| - 1] == "" then lines[..|lines| - 1] else lines
  }

  function WholeSlices(left: seq<Line>, right: seq<Line>): Slices {
    Bounds(left, 0, |left|, right, 0, |right|)
  }

  const EMPTY := Build([], [], 1, 1)

  /** The rows before the first changed line, those up to the last, and all. */
  function WithPrefix(m: Slices): Build
    requires Matching(m)
  {
    WithEquals(EMPTY, m.left[..m.leftBegin], m.right[..m.rightBegin])
  }

  /** The ends outside the slices have equal lengths. */
  predicate Matching(m: Slices) {
    m.leftBegin == m.rightBegin && |m.left| - m.leftEnd == |m.right| - m.rightEnd
  }

  function MiddleOps(m: Slices, ignoreWhitespace: bool): seq<DiffOp> {
    LineDiffOps(m.left[m.leftBegin..m.leftEnd], m.right[m.rightBegin..m.rightEnd], ignoreWhitespace)
  }

  function WithMiddle(m: Slices, ignoreWhitespace: bool): Build
    requires Matching(m)
  {
    WithOps(WithPrefix(m), MiddleOps(m, ignoreWhitespace))
  }

  function WithSuffix(m: Slices, ignoreWhitespace: bool): Build
    requires Matching(m)
  {
    WithEquals(WithMiddle(m, ignoreWhitespace), m.left[m.leftEnd..], m.right[m.rightEnd..])
  }

  function MiddleOfTexts(left: string, right: string, ignoreWhitespace: bool): (m: Slices)
    ensures Matching(m) && m.left == Aligned(left) && m.right == Aligned(right)
  {
    Middle(WholeSlices(Aligned(left), Aligned(right)), ignoreWhitespace)
  }

  function BuildOf(left: string, right: string, ignoreWhitespace: bool): Build {
    WithPhantom(WithSuffix(MiddleOfTexts(left, right, ignoreWhitespace), ignoreWhitespace), EndsInNewline(left),
                EndsInNewline(right))
  }

  // ----- What the rows say of each side -----

  function LeftTexts(rows: seq<CompareRow>): seq<Line> {
    if rows == [] then []
    else
      var row := rows[|rows| - 1];
      LeftTexts(rows[..|rows| - 1]) + if row.leftLine != 0 then [row.leftText] else []
  }

  function RightTexts(rows: seq<CompareRow>): seq<Line> {
    if rows == [] then []
    else
      var row := rows[|rows| - 1];
      RightTexts(rows[..|rows| - 1]) + if row.rightLine != 0 then [row.rightText] else []
  }

  /** The rows that carry a left line are numbered 1, 2, ... in order. */
  ghost predicate LeftNumbered(rows: seq<CompareRow>) {
    rows == [] ||
    var row := rows[|rows| - 1];
    && LeftNumbered(rows[..|rows| - 1])
    && (row.leftLine != 0 ==> row.leftLine == |LeftTexts(rows)|)
  }

  ghost predicate RightNumbered(rows: seq<CompareRow>) {
    rows == [] ||
    var row := rows[|rows| - 1];
    && RightNumbered(rows[..|rows| - 1])
    && (row.rightLine != 0 ==> row.rightLine == |RightTexts(rows)|)
  }

  /** The build has shown `left` and `right`, each line once, in order and numbered. */
  ghost predicate Shows(b: Build, left: seq<Line>, right: seq<Line>) {
    && LeftTexts(b.rows) == left && RightTexts(b.rows) == right
    && LeftNumbered(b.rows) && RightNumbered(b.rows)
    && b.leftLine == |left| + 1 && b.rightLine == |right| + 1
  }

  /** The texts a row bears. */
  function LeftOfRow(row: CompareRow): seq<Line> { if row.leftLine != 0 then [row.leftText] else [] }

  function RightOfRow(row: CompareRow): seq<Line> { if row.rightLine != 0 then [row.rightText] else [] }

  lemma {:induction false} ShowsRow(b: Build, left: seq<Line>, right: seq<Line>, row: CompareRow)
    requires Shows(b, left, right)
    requires row.leftLine == 0 || row.leftLine == b.leftLine
    requires row.rightLine == 0 || row.rightLine == b.rightLine
    ensures Shows(WithRow(b, row), left + LeftOfRow(row), right + RightOfRow(row))
  {
    assert (b.rows + [row])[..|b.rows|] == b.rows;
  }

  lemma {:induction false} ShowsEqual(b: Build, left: seq<Line>, right: seq<Line>, l: Line, r: Line)
    requires Shows(b, left, right)
    ensures Shows(WithEqual(b, l, r), left + [l], right + [r])
  {
    ShowsRow(b, left, right, EqualRow(l, r, b.leftLine, b.rightLine));
  }

  lemma {:induction false} ShowsEquals(b: Build, left: seq<Line>, right: seq<Line>, l: seq<Line>, r: seq<Line>)
    requires Shows(b, left, right) && |l| == |r|
    ensures Shows(WithEquals(b, l, r), left + l, right + r)
  {
    if l == [] {
      assert left + l == left && right + r == right;
    } else {
      var n := |l| - 1;
      ShowsEquals(b, left, right, l[..n], r[..n]);
      ShowsEqual(WithEquals(b, l[..n], r[..n]), left + l[..n], right + r[..n], l[n], r[n]);
      assert left + l == left + l[..n] + [l[n]] && right + r == right + r[..n] + [r[n]];
    }
  }

  lemma {:induction false} ShowsNextRow(b: Build, left: seq<Line>, right: seq<Line>, kind: HunkAlignment.Kind,
                                        deleted: seq<Line>, inserted: seq<Line>, hunk: nat, budget: nat)
    requires Shows(b, left, right) && TakesLeft(kind) <= |deleted| && TakesRight(kind) <= |inserted|
    ensures Shows(WithRow(b, NextRow(b, kind, deleted, inserted, hunk, budget)),
                  left + deleted[..TakesLeft(kind)], right + inserted[..TakesRight(kind)])
  {
    var row := NextRow(b, kind, deleted, inserted, hunk, budget);
    ShowsRow(b, left, right, row);
    assert LeftOfRow(row) == deleted[..TakesLeft(kind)] && RightOfRow(row) == inserted[..TakesRight(kind)];
  }

  lemma {:induction false} Onwards<T>(before: seq<T>, rest: seq<T>, k: nat)
    requires k <= |rest|
    ensures before + rest[..k] + rest[k..] == before + rest
  {
    assert rest == rest[..k] + rest[k..];
  }

  lemma {:induction false} ShowsRunRows(b: Build, left: seq<Line>, right: seq<Line>, kinds: seq<HunkAlignment.Kind>,
                                        deleted: seq<Line>, inserted: seq<Line>, hunk: nat, budget: nat)
    requires Shows(b, left, right) && HunkAlignment.ConsumesOnce(kinds, |deleted|, |inserted|)
    ensures Shows(WithRunRows(b, kinds, deleted, inserted, hunk, budget), left + deleted, right + inserted)
    decreases |kinds|
  {
    if kinds == [] {
      assert left + deleted == left && right + inserted == right;
    } else {
      var l, r := TakesLeft(kinds[0]), TakesRight(kinds[0]);
      var row := NextRow(b, kinds[0], deleted, inserted, hunk, budget);
      ShowsNextRow(b, left, right, kinds[0], deleted, inserted, hunk, budget);
      ShowsRunRows(WithRow(b, row), left + deleted[..l], right + inserted[..r], kinds[1..], deleted[l..],
                   inserted[r..], hunk,
                   Intraline.BudgetAfter(RowTextOf(row), budget));
      Onwards(left, deleted, l);
      Onwards(right, inserted, r);
    }
  }

  lemma {:induction false} ShowsRun(b: Build, left: seq<Line>, right: seq<Line>, deleted: seq<Line>,
                                    inserted: seq<Line>)
    requires Shows(b, left, right)
    ensures Shows(WithRun(b, deleted, inserted), left + deleted, right + inserted)
  {
    HunkAlignment.AlignmentConsumesOnce(deleted, inserted);
    ShowsRunRows(b, left, right, HunkAlignment.Alignment(deleted, inserted), deleted, inserted, |b.hunks|,
                 Intraline.MAX_HUNK_INTRALINE_TOTAL_CELLS);
  }

  lemma {:induction false} LinesOfRun(ops: seq<DiffOp>, n: nat, left: seq<Line>, right: seq<Line>)
    requires n <= |ops|
    ensures left + LeftLines(ops[..n]) + LeftLines(ops[n..]) == left + LeftLines(ops)
    ensures right + RightLines(ops[..n]) + RightLines(ops[n..]) == right + RightLines(ops)
  {
    LeftConcat(ops[..n], ops[n..]);
    RightConcat(ops[..n], ops[n..]);
    assert ops == ops[..n] + ops[n..];
  }

  lemma {:induction false} LinesOfEqual(ops: seq<DiffOp>, left: seq<Line>, right: seq<Line>)
    requires ops != [] && ops[0].Equal?
    ensures left + [ops[0].text] + LeftLines(ops[1..]) == left + LeftLines(ops)
    ensures right + [ops[0].rightText] + RightLines(ops[1..]) == right + RightLines(ops)
  {
    Associate(left, [ops[0].text], LeftLines(ops[1..]));
    Associate(right, [ops[0].rightText], RightLines(ops[1..]));
  }

  lemma {:induction false} ShowsOps(b: Build, left: seq<Line>, right: seq<Line>, ops: seq<DiffOp>)
    requires Shows(b, left, right)
    ensures Shows(WithOps(b, ops), left + LeftLines(ops), right + RightLines(ops))
    decreases |ops|
  {
    if ops == [] {
      assert left + [] == left && right + [] == right;
    } else if ops[0].Equal? {
      ShowsEqual(b, left, right, ops[0].text, ops[0].rightText);
      ShowsOps(WithEqual(b, ops[0].text, ops[0].rightText), left + [ops[0].text], right + [ops[0].rightText], ops[1..]);
      LinesOfEqual(ops, left, right);
    } else {
      var n := RunLength(ops);
      var l, r := LeftLines(ops[..n]), RightLines(ops[..n]);
      ShowsRun(b, left, right, l, r);
      ShowsOps(WithRun(b, l, r), left + l, right + r, ops[n..]);
      LinesOfRun(ops, n, left, right);
    }
  }

  lemma {:induction false} ShowsPhantom(b: Build, left: seq<Line>, right: seq<Line>, leftPhantom: bool,
                                        rightPhantom: bool)
    requires Shows(b, left, right)
    ensures Shows(WithPhantom(b, leftPhantom, rightPhantom),
                  left + (if leftPhantom then [""] else []), right + (if rightPhantom then [""] else []))
  {
    if leftPhantom || rightPhantom {
      ShowsRow(b, left, right, WithPhantom(b, leftPhantom, rightPhantom).rows[|b.rows|]);
    } else {
      assert left + [] == left && right + [] == right;
    }
  }

  lemma {:induction false} AlignedAndPhantom(text: string)
    ensures Aligned(text) + (if EndsInNewline(text) then [""] else []) == SplitLines(text)
  {
    if EndsInNewline(text) {
      PhantomIsLast(text);
    }
  }

  lemma {:induction false} ShowsPrefix(m: Slices)
    requires Matching(m)
    ensures Shows(WithPrefix(m), m.left[..m.leftBegin], m.right[..m.rightBegin])
  {
    ShowsEquals(EMPTY, [], [], m.left[..m.leftBegin], m.right[..m.rightBegin]);
    assert [] + m.left[..m.leftBegin] == m.left[..m.leftBegin]
        && [] + m.right[..m.rightBegin] == m.right[..m.rightBegin];
  }

  lemma {:induction false} MiddleOpsLines(m: Slices, ignoreWhitespace: bool)
    ensures LeftLines(MiddleOps(m, ignoreWhitespace)) == m.left[m.leftBegin..m.leftEnd]
    ensures RightLines(MiddleOps(m, ignoreWhitespace)) == m.right[m.rightBegin..m.rightEnd]
  {
    LineDiffValid(m.left[m.leftBegin..m.leftEnd], m.right[m.rightBegin..m.rightEnd], ignoreWhitespace);
  }

  lemma {:induction false} UpTo<T>(x: seq<T>, a: nat, b: nat)
    requires a <= b <= |x|
    ensures x[..a] + x[a..b] == x[..b]
  {
  }

  lemma {:induction false} ShowsMiddleOf(m: Slices, b: Build, ops: seq<DiffOp>)
    requires Shows(b, m.left[..m.leftBegin], m.right[..m.rightBegin])
    requires LeftLines(ops) == m.left[m.leftBegin..m.leftEnd] && RightLines(ops) == m.right[m.rightBegin..m.rightEnd]
    ensures Shows(WithOps(b, ops), m.left[..m.leftEnd], m.right[..m.rightEnd])
  {
    ShowsOps(b, m.left[..m.leftBegin], m.right[..m.rightBegin], ops);
    UpTo(m.left, m.leftBegin, m.leftEnd);
    UpTo(m.right, m.rightBegin, m.rightEnd);
  }

  lemma {:induction false} ShowsMiddle(m: Slices, ignoreWhitespace: bool)
    requires Matching(m)
    ensures Shows(WithMiddle(m, ignoreWhitespace), m.left[..m.leftEnd], m.right[..m.rightEnd])
  {
    ShowsPrefix(m);
    MiddleOpsLines(m, ignoreWhitespace);
    ShowsMiddleOf(m, WithPrefix(m), MiddleOps(m, ignoreWhitespace));
  }

  lemma {:induction false} ShowsSuffix(m: Slices, ignoreWhitespace: bool)
    requires Matching(m)
    ensures Shows(WithSuffix(m, ignoreWhitespace), m.left, m.right)
  {
    hide Shows, WithMiddle;
    ShowsMiddle(m, ignoreWhitespace);
    ShowsEquals(WithMiddle(m, ignoreWhitespace), m.left[..m.leftEnd], m.right[..m.rightEnd], m.left[m.leftEnd..],
                m.right[m.rightEnd..]);
    TakeAndDrop(m.left, m.leftEnd);
    TakeAndDrop(m.right, m.rightEnd);
  }

  /** The rows rebuild both files: the left-bearing rows, in order, are the left lines, phantom included,
      numbered from 1; likewise on the right. */
  lemma {:induction false} RowsRebuildBothSides(left: string, right: string, ignoreWhitespace: bool)
    ensures Shows(BuildOf(left, right, ignoreWhitespace), SplitLines(left), SplitLines(right))
  {
    var m := MiddleOfTexts(left, right, ignoreWhitespace);
    ShowsSuffix(m, ignoreWhitespace);
    ShowsPhantom(WithSuffix(m, ignoreWhitespace), m.left, m.right, EndsInNewline(left), EndsInNewline(right));
    AlignedAndPhantom(left);
    AlignedAndPhantom(right);
  }

  // ----- Rows and hunks -----

  /** A row names the hunk that covers it, and names one exactly when it is not unchanged. */
  predicate RowPlaced(row: CompareRow, at: nat, hunks: seq<CompareHunk>) {
    if row.hunk == -1 then row.kind.Unchanged?
    else !row.kind.Unchanged? && 0 <= row.hunk < |hunks| && hunks[row.hunk].startRow <= at <= hunks[row.hunk].endRow
  }

  predicate HunkShaped(hunk: CompareHunk, index: nat, count: nat) {
    hunk.index == index && hunk.startRow <= hunk.endRow < count
  }

  /** At least one row lies between a hunk and the next. */
  predicate Apart(hunks: seq<CompareHunk>, h: nat)
    requires 0 < h < |hunks|
  {
    hunks[h - 1].endRow + 1 < hunks[h].startRow
  }

  ghost predicate Covers(rows: seq<CompareRow>, hunk: CompareHunk, index: nat) {
    forall r | hunk.startRow <= r <= hunk.endRow && r < |rows| :: rows[r].hunk == index
  }

  ghost predicate Placed(rows: seq<CompareRow>, hunks: seq<CompareHunk>) {
    && (forall r | 0 <= r < |rows| :: RowPlaced(rows[r], r, hunks))
    && (forall h | 0 <= h < |hunks| :: HunkShaped(hunks[h], h, |rows|))
    && (forall h | 0 <= h < |hunks| :: Covers(rows, hunks[h], h))
    && (forall h | 0 < h < |hunks| :: Apart(hunks, h))
  }

  /** No hunk reaches the last row. */
  predicate EndsUnchanged(rows: seq<CompareRow>) {
    rows == [] || rows[|rows| - 1].kind.Unchanged?
  }

  lemma {:induction false} PlacedUnchanged(rows: seq<CompareRow>, hunks: seq<CompareHunk>, row: CompareRow)
    requires Placed(rows, hunks) && row.kind.Unchanged? && row.hunk == -1
    ensures Placed(rows + [row], hunks) && EndsUnchanged(rows + [row])
  {
    var all := rows + [row];
    forall h | 0 <= h < |hunks| ensures HunkShaped(hunks[h], h, |all|) && Covers(all, hunks[h], h) {
      assert HunkShaped(hunks[h], h, |rows|) && Covers(rows, hunks[h], h);
    }
  }

  lemma {:induction false} PlacedEquals(b: Build, l: seq<Line>, r: seq<Line>)
    requires Placed(b.rows, b.hunks) && |l| == |r|
    ensures Placed(WithEquals(b, l, r).rows, WithEquals(b, l, r).hunks)
    ensures l != [] ==> EndsUnchanged(WithEquals(b, l, r).rows)
    ensures l == [] ==> WithEquals(b, l, r) == b
  {
    if l != [] {
      var n := |l| - 1;
      PlacedEquals(b, l[..n], r[..n]);
      var c := WithEquals(b, l[..n], r[..n]);
      PlacedUnchanged(c.rows, c.hunks, EqualRow(l[n], r[n], c.leftLine, c.rightLine));
    }
  }

  ghost predicate NamesHunk(rows: seq<CompareRow>, hunk: int) {
    forall k | 0 <= k < |rows| :: rows[k].hunk == hunk && !rows[k].kind.Unchanged?
  }

  lemma {:induction false} NextRowNames(b: Build, kind: HunkAlignment.Kind, deleted: seq<Line>, inserted: seq<Line>,
                                        hunk: nat, budget: nat)
    requires TakesLeft(kind) <= |deleted| && TakesRight(kind) <= |inserted|
    ensures NextRow(b, kind, deleted, inserted, hunk, budget).hunk == hunk
    ensures !NextRow(b, kind, deleted, inserted, hunk, budget).kind.Unchanged?
  {
  }

  lemma {:induction false} RowsAppend(rows: seq<CompareRow>, row: CompareRow, rest: seq<CompareRow>, hunk: int)
    requires NamesHunk(rest, hunk) && row.hunk == hunk && !row.kind.Unchanged?
    ensures NamesHunk([row] + rest, hunk) && rows + [row] + rest == rows + ([row] + rest)
  {
  }

  /** The rows of a run come after the others, one for each alignment step, and all name the run's hunk. */
  lemma {:induction false} RunRowsNameHunk(b: Build, kinds: seq<HunkAlignment.Kind>, deleted: seq<Line>,
                                           inserted: seq<Line>,
                                           hunk: nat, budget: nat) returns (more: seq<CompareRow>)
    requires HunkAlignment.ConsumesOnce(kinds, |deleted|, |inserted|)
    ensures WithRunRows(b, kinds, deleted, inserted, hunk, budget).rows == b.rows + more
    ensures |more| == |kinds| && NamesHunk(more, hunk)
    decreases |kinds|
  {
    if kinds == [] {
      more := [];
    } else {
      var row := NextRow(b, kinds[0], deleted, inserted, hunk, budget);
      NextRowNames(b, kinds[0], deleted, inserted, hunk, budget);
      var rest := RunRowsNameHunk(WithRow(b, row), kinds[1..], deleted[TakesLeft(kinds[0])..],
                                  inserted[TakesRight(kinds[0])..], hunk,
                                  Intraline.BudgetAfter(RowTextOf(row), budget));
      RowsAppend(b.rows, row, rest, hunk);
      more := [row] + rest;
    }
  }

  lemma {:induction false} NoKinds(kinds: seq<HunkAlignment.Kind>, deleted: nat, inserted: nat)
    requires HunkAlignment.ConsumesOnce(kinds, deleted, inserted) && deleted + inserted > 0
    ensures kinds != []
  {
  }

  lemma {:induction false} PlacedHunk(rows: seq<CompareRow>, more: seq<CompareRow>, hunks: seq<CompareHunk>)
    requires Placed(rows, hunks) && EndsUnchanged(rows) && more != []
    requires NamesHunk(more, |hunks|)
    ensures Placed(rows + more, hunks + [CompareHunk(|hunks|, |rows|, |rows| + |more| - 1)])
  {
    var all, allHunks := rows + more, hunks + [CompareHunk(|hunks|, |rows|, |rows| + |more| - 1)];
    forall r | 0 <= r < |all| ensures RowPlaced(all[r], r, allHunks) {
      assert r < |rows| ==> RowPlaced(rows[r], r, hunks);
      assert r >= |rows| ==> all[r] == more[r - |rows|];
    }
    forall h | 0 <= h < |allHunks| ensures HunkShaped(allHunks[h], h, |all|) && Covers(all, allHunks[h], h) {
      assert h < |hunks| ==> HunkShaped(hunks[h], h, |rows|) && Covers(rows, hunks[h], h);
    }
    forall h | 0 < h < |allHunks| ensures Apart(allHunks, h) {
      if h < |hunks| {
        assert Apart(hunks, h);
      } else {
        LastHunkBeforeUnchanged(rows, hunks);
      }
    }
  }

  lemma {:induction false} LastHunkBeforeUnchanged(rows: seq<CompareRow>, hunks: seq<CompareHunk>)
    requires Placed(rows, hunks) && EndsUnchanged(rows) && hunks != []
    ensures hunks[|hunks| - 1].endRow + 1 < |rows|
  {
    var h := |hunks| - 1;
    assert HunkShaped(hunks[h], h, |rows|) && Covers(rows, hunks[h], h);
    assert RowPlaced(rows[|rows| - 1], |rows| - 1, hunks);
  }

  /** A run adds at least one row. */
  lemma {:induction false} RunAddsRows(b: Build, deleted: seq<Line>, inserted: seq<Line>)
      returns (more: seq<CompareRow>)
    requires |deleted| + |inserted| > 0
    ensures WithAlignedRows(b, deleted, inserted).rows == b.rows + more
    ensures more != [] && NamesHunk(more, |b.hunks|)
  {
    var kinds := HunkAlignment.Alignment(deleted, inserted);
    HunkAlignment.AlignmentConsumesOnce(deleted, inserted);
    NoKinds(kinds, |deleted|, |inserted|);
    more := RunRowsNameHunk(b, kinds, deleted, inserted, |b.hunks|, Intraline.MAX_HUNK_INTRALINE_TOTAL_CELLS);
  }

  lemma {:induction false} PlacedRun(b: Build, deleted: seq<Line>, inserted: seq<Line>)
    requires Placed(b.rows, b.hunks) && EndsUnchanged(b.rows) && |deleted| + |inserted| > 0
    ensures Placed(WithRun(b, deleted, inserted).rows, WithRun(b, deleted, inserted).hunks)
  {
    hide WithAlignedRows;
    var more := RunAddsRows(b, deleted, inserted);
    PlacedHunk(b.rows, more, b.hunks);
  }

  lemma {:induction false} RunHasLines(ops: seq<DiffOp>)
    requires ops != [] && !ops[0].Equal?
    ensures |LeftLines(ops)| + |RightLines(ops)| > 0
  {
  }

  lemma {:induction false} PlacedOps(b: Build, ops: seq<DiffOp>)
    requires Placed(b.rows, b.hunks) && (ops == [] || ops[0].Equal? || EndsUnchanged(b.rows))
    ensures Placed(WithOps(b, ops).rows, WithOps(b, ops).hunks)
    decreases |ops|
  {
    if ops == [] {
    } else if ops[0].Equal? {
      PlacedUnchanged(b.rows, b.hunks, EqualRow(ops[0].text, ops[0].rightText, b.leftLine, b.rightLine));
      PlacedOps(WithEqual(b, ops[0].text, ops[0].rightText), ops[1..]);
    } else {
      var n := RunLength(ops);
      var l, r := LeftLines(ops[..n]), RightLines(ops[..n]);
      RunHasLines(ops[..n]);
      PlacedRun(b, l, r);
      PlacedOps(WithRun(b, l, r), ops[n..]);
    }
  }

  lemma {:induction false} PlacedJoin(rows: seq<CompareRow>, hunks: seq<CompareHunk>, row: CompareRow)
    requires Placed(rows, hunks) && hunks != [] && hunks[|hunks| - 1].endRow + 1 == |rows|
    requires row.hunk == |hunks| - 1 && !row.kind.Unchanged?
    ensures Placed(rows + [row], hunks[|hunks| - 1 := hunks[|hunks| - 1].(endRow := |rows|)])
  {
    var all, last := rows + [row], |hunks| - 1;
    var allHunks := hunks[last := hunks[last].(endRow := |rows|)];
    forall r | 0 <= r < |all| ensures RowPlaced(all[r], r, allHunks) {
      assert r < |rows| ==> RowPlaced(rows[r], r, hunks);
      assert HunkShaped(hunks[last], last, |rows|);
    }
    forall h | 0 <= h < |allHunks| ensures HunkShaped(allHunks[h], h, |all|) && Covers(all, allHunks[h], h) {
      assert HunkShaped(hunks[h], h, |rows|) && Covers(rows, hunks[h], h);
    }
    forall h | 0 < h < |allHunks| ensures Apart(allHunks, h) {
      assert Apart(hunks, h);
    }
  }

  /** Otherwise the rows before a changed phantom end unchanged. */
  lemma {:induction false} NoHunkAtEnd(rows: seq<CompareRow>, hunks: seq<CompareHunk>)
    requires Placed(rows, hunks) && !(hunks != [] && hunks[|hunks| - 1].endRow + 1 == |rows|)
    ensures EndsUnchanged(rows)
  {
    if rows != [] {
      assert RowPlaced(rows[|rows| - 1], |rows| - 1, hunks);
      var h := rows[|rows| - 1].hunk;
      assert 0 <= h < |hunks| ==> HunkShaped(hunks[h], h, |rows|);
      assert 0 <= h && h + 1 < |hunks| ==> Apart(hunks, h + 1) && HunkShaped(hunks[h + 1], h + 1, |rows|);
    }
  }

  lemma {:induction false} LastHunkShaped(rows: seq<CompareRow>, hunks: seq<CompareHunk>)
    requires Placed(rows, hunks) && hunks != []
    ensures hunks[|hunks| - 1].index == |hunks| - 1
  {
    assert HunkShaped(hunks[|hunks| - 1], |hunks| - 1, |rows|);
  }

  lemma {:induction false} PlacedOneSided(b: Build, left: bool)
    requires Placed(b.rows, b.hunks)
    ensures var r := WithPhantom(b, left, !left); Placed(r.rows, r.hunks)
  {
    hide Placed;
    var r := WithPhantom(b, left, !left);
    var row := r.rows[|b.rows|];
    if b.hunks != [] && b.hunks[|b.hunks| - 1].endRow + 1 == |b.rows| {
      LastHunkShaped(b.rows, b.hunks);
      PlacedJoin(b.rows, b.hunks, row);
    } else {
      NoHunkAtEnd(b.rows, b.hunks);
      PlacedHunk(b.rows, [row], b.hunks);
    }
  }

  lemma {:induction false} PlacedPhantom(b: Build, left: bool, right: bool)
    requires Placed(b.rows, b.hunks)
    ensures var r := WithPhantom(b, left, right); Placed(r.rows, r.hunks)
  {
    hide Placed;
    if left && right {
      PlacedUnchanged(b.rows, b.hunks, EqualRow("", "", b.leftLine, b.rightLine));
    } else if left || right {
      PlacedOneSided(b, left);
    }
  }

  /** The rows and hunks of every model fit each other. */
  lemma {:induction false} BuildIsPlaced(left: string, right: string, ignoreWhitespace: bool)
    ensures Placed(BuildOf(left, right, ignoreWhitespace).rows, BuildOf(left, right, ignoreWhitespace).hunks)
  {
    var m := MiddleOfTexts(left, right, ignoreWhitespace);
    PlacedEquals(EMPTY, m.left[..m.leftBegin], m.right[..m.rightBegin]);
    PlacedOps(WithPrefix(m), MiddleOps(m, ignoreWhitespace));
    PlacedEquals(WithMiddle(m, ignoreWhitespace), m.left[m.leftEnd..], m.right[m.rightEnd..]);
    PlacedPhantom(WithSuffix(m, ignoreWhitespace), EndsInNewline(left), EndsInNewline(right));
  }

  lemma {:induction false} HunksAscend(rows: seq<CompareRow>, hunks: seq<CompareHunk>, h: nat, k: nat)
    requires Placed(rows, hunks) && h < k < |hunks|
    ensures hunks[h].endRow + 1 < hunks[k].startRow
    decreases k
  {
    assert Apart(hunks, k);
    if h < k - 1 {
      HunksAscend(rows, hunks, h, k - 1);
      assert HunkShaped(hunks[k - 1], k - 1, |rows|);
    }
  }

  /** Hunks are non-empty, ascending and separated by an unchanged row; a row names hunk `h` exactly when
      `h` covers it, and names one exactly when it is not unchanged. */
  lemma {:induction false} RowsAndHunksAgree(left: string, right: string, ignoreWhitespace: bool, r: nat, h: nat)
    requires r < |BuildOf(left, right, ignoreWhitespace).rows| && h < |BuildOf(left, right, ignoreWhitespace).hunks|
    ensures var b := BuildOf(left, right, ignoreWhitespace);
            && b.hunks[h].index == h && b.hunks[h].startRow <= b.hunks[h].endRow < |b.rows|
            && (b.rows[r].hunk == h <==> b.hunks[h].startRow <= r <= b.hunks[h].endRow)
            && (b.rows[r].hunk == -1 <==> b.rows[r].kind.Unchanged?)
            && (h + 1 < |b.hunks| ==> b.hunks[h].endRow + 1 < b.hunks[h + 1].startRow < |b.rows|
                                      && b.rows[b.hunks[h].endRow + 1].kind.Unchanged?)
  {
    BuildIsPlaced(left, right, ignoreWhitespace);
    var b := BuildOf(left, right, ignoreWhitespace);
    PlacedAgrees(b.rows, b.hunks, r, h);
  }

  lemma {:induction false} PlacedAgrees(rows: seq<CompareRow>, hunks: seq<CompareHunk>, r: nat, h: nat)
    requires Placed(rows, hunks) && r < |rows| && h < |hunks|
    ensures hunks[h].index == h && hunks[h].startRow <= hunks[h].endRow < |rows|
    ensures rows[r].hunk == h <==> hunks[h].startRow <= r <= hunks[h].endRow
    ensures rows[r].hunk == -1 <==> rows[r].kind.Unchanged?
    ensures h + 1 < |hunks| ==>
            && hunks[h].endRow + 1 < hunks[h + 1].startRow < |rows|
            && rows[hunks[h].endRow + 1].kind.Unchanged?
  {
    assert RowPlaced(rows[r], r, hunks) && HunkShaped(hunks[h], h, |rows|) && Covers(rows, hunks[h], h);
    if h + 1 < |hunks| {
      assert Apart(hunks, h + 1) && HunkShaped(hunks[h + 1], h + 1, |rows|);
      BetweenHunks(rows, hunks, h);
    }
  }

  lemma {:induction false} BetweenHunks(rows: seq<CompareRow>, hunks: seq<CompareHunk>, h: nat)
    requires Placed(rows, hunks) && h + 1 < |hunks| && hunks[h].endRow + 1 < |rows|
    ensures rows[hunks[h].endRow + 1].kind.Unchanged?
  {
    var at := hunks[h].endRow + 1;
    assert RowPlaced(rows[at], at, hunks) && HunkShaped(hunks[h], h, |rows|);
    var k := rows[at].hunk;
    if 0 <= k < |hunks| {
      assert HunkShaped(hunks[k], k, |rows|);
      if k < h {
        HunksAscend(rows, hunks, k, h);
      } else if k > h {
        HunksAscend(rows, hunks, h, k);
      }
    }
  }

  // ----- Every row bears a line -----

  /** An added row bears a line on the right only, a deleted one on the left only, any other on both sides; a side
      without a line shows no text and no span, and an unchanged row no span at all. */
  ghost predicate BearsAsKind(row: CompareRow) {
    match row.kind
    case Added => row.leftLine == 0 && row.leftText == "" && row.marks.left == [] && row.rightLine != 0
    case Deleted => row.rightLine == 0 && row.rightText == "" && row.marks.right == [] && row.leftLine != 0
    case Modified => row.leftLine != 0 && row.rightLine != 0
    case Unchanged => row.leftLine != 0 && row.rightLine != 0 && row.marks == NO_MARKS
  }

  ghost predicate AllBear(rows: seq<CompareRow>) {
    forall r | 0 <= r < |rows| :: BearsAsKind(rows[r])
  }

  ghost predicate Bearing(b: Build) {
    AllBear(b.rows) && b.leftLine > 0 && b.rightLine > 0
  }

  lemma {:induction false} EqualsBear(b: Build, l: seq<Line>, r: seq<Line>)
    requires Bearing(b) && |l| == |r|
    ensures Bearing(WithEquals(b, l, r))
  {
    if l != [] {
      EqualsBear(b, l[..|l| - 1], r[..|l| - 1]);
    }
  }

  lemma {:induction false} NextRowBears(b: Build, kind: HunkAlignment.Kind, deleted: seq<Line>, inserted: seq<Line>,
                                        hunk: nat, budget: nat)
    requires Bearing(b) && TakesLeft(kind) <= |deleted| && TakesRight(kind) <= |inserted|
    ensures Bearing(WithRow(b, NextRow(b, kind, deleted, inserted, hunk, budget)))
  {
    var row := NextRow(b, kind, deleted, inserted, hunk, budget);
    assert BearsAsKind(row);
  }

  lemma {:induction false} RunRowsBear(b: Build, kinds: seq<HunkAlignment.Kind>, deleted: seq<Line>,
                                       inserted: seq<Line>, hunk: nat, budget: nat)
    requires Bearing(b) && HunkAlignment.ConsumesOnce(kinds, |deleted|, |inserted|)
    ensures Bearing(WithRunRows(b, kinds, deleted, inserted, hunk, budget))
    decreases |kinds|
  {
    if kinds != [] {
      var row := NextRow(b, kinds[0], deleted, inserted, hunk, budget);
      NextRowBears(b, kinds[0], deleted, inserted, hunk, budget);
      RunRowsBear(WithRow(b, row), kinds[1..], deleted[TakesLeft(kinds[0])..], inserted[TakesRight(kinds[0])..], hunk,
                  Intraline.BudgetAfter(RowTextOf(row), budget));
    }
  }

  lemma {:induction false} RunBears(b: Build, deleted: seq<Line>, inserted: seq<Line>)
    requires Bearing(b)
    ensures Bearing(WithRun(b, deleted, inserted))
  {
    HunkAlignment.AlignmentConsumesOnce(deleted, inserted);
    RunRowsBear(b, HunkAlignment.Alignment(deleted, inserted), deleted, inserted, |b.hunks|,
                Intraline.MAX_HUNK_INTRALINE_TOTAL_CELLS);
  }

  lemma {:induction false} OpsBear(b: Build, ops: seq<DiffOp>)
    requires Bearing(b)
    ensures Bearing(WithOps(b, ops))
    decreases |ops|
  {
    hide WithRun;
    if ops == [] {
    } else if ops[0].Equal? {
      OpsBear(WithEqual(b, ops[0].text, ops[0].rightText), ops[1..]);
    } else {
      var n := RunLength(ops);
      RunBears(b, LeftLines(ops[..n]), RightLines(ops[..n]));
      OpsBear(WithRun(b, LeftLines(ops[..n]), RightLines(ops[..n])), ops[n..]);
    }
  }

  /** Every row of a model bears lines as its kind says, phantoms included. */
  lemma {:induction false} BuildBears(left: string, right: string, ignoreWhitespace: bool)
    ensures AllBear(BuildOf(left, right, ignoreWhitespace).rows)
  {
    hide LineDiffOps;
    var m := MiddleOfTexts(left, right, ignoreWhitespace);
    EqualsBear(EMPTY, m.left[..m.leftBegin], m.right[..m.rightBegin]);
    OpsBear(WithPrefix(m), MiddleOps(m, ignoreWhitespace));
    EqualsBear(WithMiddle(m, ignoreWhitespace), m.left[m.leftEnd..], m.right[m.rightEnd..]);
  }

  // ----- Unchanged rows -----

  /** Unchanged rows pair lines that count as equal. */
  ghost predicate PairsEqual(rows: seq<CompareRow>, ignoreWhitespace: bool) {
    forall r | 0 <= r < |rows| && rows[r].kind.Unchanged? ::
        LinesEqualForDiff(rows[r].leftText, rows[r].rightText, ignoreWhitespace)
  }

  lemma {:induction false} EqualsPairEqual(b: Build, l: seq<Line>, r: seq<Line>, ignoreWhitespace: bool)
    requires PairsEqual(b.rows, ignoreWhitespace) && AllEqual(l, r, ignoreWhitespace)
    ensures PairsEqual(WithEquals(b, l, r).rows, ignoreWhitespace)
  {
    if l != [] {
      EqualsPairEqual(b, l[..|l| - 1], r[..|l| - 1], ignoreWhitespace);
    }
  }

  lemma {:induction false} RunPairsEqual(b: Build, deleted: seq<Line>, inserted: seq<Line>, ignoreWhitespace: bool)
    requires PairsEqual(b.rows, ignoreWhitespace) && |deleted| + |inserted| > 0
    ensures PairsEqual(WithRun(b, deleted, inserted).rows, ignoreWhitespace)
  {
    var more := RunAddsRows(b, deleted, inserted);
  }

  lemma {:induction false} OpsPairEqual(b: Build, ops: seq<DiffOp>, ignoreWhitespace: bool)
    requires PairsEqual(b.rows, ignoreWhitespace) && PairsMatch(ops, ignoreWhitespace)
    ensures PairsEqual(WithOps(b, ops).rows, ignoreWhitespace)
    decreases |ops|
  {
    if ops == [] {
    } else if ops[0].Equal? {
      OpsPairEqual(WithEqual(b, ops[0].text, ops[0].rightText), ops[1..], ignoreWhitespace);
    } else {
      var n := RunLength(ops);
      RunHasLines(ops[..n]);
      RunPairsEqual(b, LeftLines(ops[..n]), RightLines(ops[..n]), ignoreWhitespace);
      OpsPairEqual(WithRun(b, LeftLines(ops[..n]), RightLines(ops[..n])), ops[n..], ignoreWhitespace);
    }
  }

  lemma {:induction false} EndsAllEqual(left: string, right: string, ignoreWhitespace: bool)
    ensures var m := MiddleOfTexts(left, right, ignoreWhitespace);
            && AllEqual(m.left[..m.leftBegin], m.right[..m.rightBegin], ignoreWhitespace)
            && AllEqual(m.left[m.leftEnd..], m.right[m.rightEnd..], ignoreWhitespace)
  {
    var s := WholeSlices(Aligned(left), Aligned(right));
    var t := TrimPrefix(s, ignoreWhitespace);
    TrimPrefixEqual(s, ignoreWhitespace);
    TrimSuffixEqual(t, ignoreWhitespace);
    var m := MiddleOfTexts(left, right, ignoreWhitespace);
    assert m.left[0..m.leftBegin] == m.left[..m.leftBegin] && m.right[0..m.rightBegin] == m.right[..m.rightBegin];
    assert m.left[m.leftEnd..|m.left|] == m.left[m.leftEnd..]
        && m.right[m.rightEnd..|m.right|] == m.right[m.rightEnd..];
  }

  lemma {:induction false} MiddlePairsEqual(m: Slices, ignoreWhitespace: bool)
    requires Matching(m) && AllEqual(m.left[..m.leftBegin], m.right[..m.rightBegin], ignoreWhitespace)
    ensures PairsEqual(WithMiddle(m, ignoreWhitespace).rows, ignoreWhitespace)
  {
    hide LineDiffOps, AllEqual;
    EqualsPairEqual(EMPTY, m.left[..m.leftBegin], m.right[..m.rightBegin], ignoreWhitespace);
    LineDiffValid(m.left[m.leftBegin..m.leftEnd], m.right[m.rightBegin..m.rightEnd], ignoreWhitespace);
    OpsPairEqual(WithPrefix(m), MiddleOps(m, ignoreWhitespace), ignoreWhitespace);
  }

  lemma {:induction false} PhantomPairsEqual(b: Build, leftPhantom: bool, rightPhantom: bool, ignoreWhitespace: bool)
    requires PairsEqual(b.rows, ignoreWhitespace)
    ensures PairsEqual(WithPhantom(b, leftPhantom, rightPhantom).rows, ignoreWhitespace)
  {
  }

  /** An unchanged row never shows two lines that differ. */
  lemma {:induction false} UnchangedRowsPairEqualLines(left: string, right: string, ignoreWhitespace: bool)
    ensures PairsEqual(BuildOf(left, right, ignoreWhitespace).rows, ignoreWhitespace)
  {
    var m := MiddleOfTexts(left, right, ignoreWhitespace);
    EndsAllEqual(left, right, ignoreWhitespace);
    hide MiddleOfTexts, WithMiddle, AllEqual;
    MiddlePairsEqual(m, ignoreWhitespace);
    EqualsPairEqual(WithMiddle(m, ignoreWhitespace), m.left[m.leftEnd..], m.right[m.rightEnd..], ignoreWhitespace);
    PhantomPairsEqual(WithSuffix(m, ignoreWhitespace), EndsInNewline(left), EndsInNewline(right), ignoreWhitespace);
    hide PairsEqual, WithPhantom;
  }

  // ----- The build in place -----

  /** How far a build has got in the model's row storage, and its next line numbers. */
  datatype Cursor = Cursor(next: nat, leftLine: nat, rightLine: nat)

  class CompareModel {
    /** The rows of this build up to the cursor, and past it what an earlier build left. */
    var rows: seq<CompareRow>
    var hunks: seq<CompareHunk>

    constructor ()
      ensures rows == [] && hunks == []
    {
      rows, hunks := [], [];
    }

    ghost function Taken(c: Cursor): Build
      reads this
      requires c.next <= |rows|
    {
      Build(rows[..c.next], hunks, c.leftLine, c.rightLine)
    }

    /** The next row: a recycled one is overwritten, every field of it. */
    method PutRow(next: nat, row: CompareRow)
      requires next <= |rows|
      modifies this`rows
      ensures next < |rows| && rows[..next + 1] == old(rows[..next]) + [row]
    {
      if next == |rows| {
        rows := rows + [row];
      } else {
        rows := rows[next := row];
      }
    }

    method AppendEqual(c: Cursor, left: Line, right: Line) returns (d: Cursor)
      requires c.next <= |rows|
      modifies this`rows
      ensures d.next <= |rows| && Taken(d) == WithEqual(old(Taken(c)), left, right)
    {
      PutRow(c.next, EqualRow(left, right, c.leftLine, c.rightLine));
      d := Cursor(c.next + 1, c.leftLine + 1, c.rightLine + 1);
    }

    method AppendEquals(c: Cursor, left: seq<Line>, right: seq<Line>) returns (d: Cursor)
      requires c.next <= |rows| && |left| == |right|
      modifies this`rows
      ensures d.next <= |rows| && Taken(d) == WithEquals(old(Taken(c)), left, right)
    {
      d := c;
      var index := 0;
      while index < |left|
        invariant index <= |left| && d.next <= |rows|
        invariant Taken(d) == WithEquals(old(Taken(c)), left[..index], right[..index])
      {
        assert left[..index + 1][..index] == left[..index] && right[..index + 1][..index] == right[..index];
        d := AppendEqual(d, left[index], right[index]);
        index := index + 1;
      }
      assert left[..index] == left && right[..index] == right;
    }

    /** One row of a changed run, with its spans. */
    method AppendChanged(c: Cursor, kind: HunkAlignment.Kind, left: Line, right: Line, hunk: nat, budget: nat)
      returns (d: Cursor, budgetLeft: nat, cells: nat)
      requires c.next <= |rows| && 0 < c.leftLine && 0 < c.rightLine
      modifies this`rows
      ensures var row := ChangedRow(kind, left, right, c.leftLine, c.rightLine, hunk, budget);
              && d.next <= |rows| && Taken(d) == WithRow(old(Taken(c)), row)
              && budgetLeft == Intraline.BudgetAfter(RowTextOf(row), budget)
              && cells == Intraline.RowCells(RowTextOf(row), budget)
      ensures d.leftLine == c.leftLine + TakesLeft(kind) && d.rightLine == c.rightLine + TakesRight(kind)
    {
      var leftText, rightText := if kind.Insert? then "" else left, if kind.Delete? then "" else right;
      var leftLine, rightLine := if kind.Insert? then 0 else c.leftLine, if kind.Delete? then 0 else c.rightLine;
      var rowKind := if leftLine != 0 && rightLine != 0 then Intraline.Modified
                     else if leftLine != 0 then Intraline.Deleted else Intraline.Added;
      var marks;
      marks, budgetLeft, cells := Intraline.PopulateChangedSpans(Intraline.RowText(rowKind, leftText, rightText),
                                                                 budget);
      PutRow(c.next, CompareRow(leftText, rightText, leftLine, rightLine, rowKind, hunk, marks));
      d := Cursor(c.next + 1, c.leftLine + TakesLeft(kind), c.rightLine + TakesRight(kind));
    }

    /** The rows of a changed run, refined under one budget; `cells` counts what their tables take. */
    method AppendRunRows(c: Cursor, alignment: seq<HunkAlignment.Kind>, deleted: seq<Line>, inserted: seq<Line>,
                         hunk: nat)
      returns (d: Cursor, cells: nat)
      requires c.next <= |rows| && 0 < c.leftLine && 0 < c.rightLine
      requires HunkAlignment.ConsumesOnce(alignment, |deleted|, |inserted|)
      modifies this`rows
      ensures d.next <= |rows| && 0 < d.leftLine && 0 < d.rightLine
      ensures Taken(d) == WithRunRows(old(Taken(c)), alignment, deleted, inserted, hunk,
                                      Intraline.MAX_HUNK_INTRALINE_TOTAL_CELLS)
      ensures c.next <= d.next
      ensures cells == Intraline.HunkCells(RowTexts(Taken(d).rows[c.next..]),
                                           Intraline.MAX_HUNK_INTRALINE_TOTAL_CELLS).0
      ensures cells <= Intraline.MAX_HUNK_INTRALINE_TOTAL_CELLS + CommonSubsequence.MAX_INTRALINE_LCS_MATRIX_CELLS
    {
      hide Intraline.BudgetAfter, Intraline.RowCells, Intraline.HunkCells, RowTexts, WithRunRows, ChangedRow;
      NoCells();
      assert Taken(c).rows[c.next..] == [];
      d, cells := c, 0;
      var budget: nat := Intraline.MAX_HUNK_INTRALINE_TOTAL_CELLS;
      ghost var whole := WithRunRows(Taken(c), alignment, deleted, inserted, hunk, budget);
      var at: nat, deletedIndex: nat, insertedIndex: nat := 0, 0, 0;
      while at < |alignment|
        invariant at <= |alignment| && deletedIndex <= |deleted| && insertedIndex <= |inserted|
        invariant c.next <= d.next <= |rows| && 0 < d.leftLine && 0 < d.rightLine
        invariant HunkAlignment.ConsumesOnce(alignment[at..], |deleted| - deletedIndex, |inserted| - insertedIndex)
        invariant WithRunRows(Taken(d), alignment[at..], deleted[deletedIndex..], inserted[insertedIndex..], hunk,
                              budget) == whole
        invariant Intraline.HunkCells(RowTexts(Taken(d).rows[c.next..]), Intraline.MAX_HUNK_INTRALINE_TOTAL_CELLS)
                  == (cells, budget)
      {
        var kind := alignment[at];
        ghost var before := Taken(d).rows;
        ghost var budgetBefore, cellsBefore := budget, cells;
        StepOfRun(Taken(d), alignment, at, deleted, deletedIndex, inserted, insertedIndex, hunk, budget);
        var rowCells;
        d, budget, rowCells := AppendChanged(d, kind, if kind.Insert? then "" else deleted[deletedIndex],
                                             if kind.Delete? then "" else inserted[insertedIndex], hunk, budget);
        cells := cells + rowCells;
        MoreCells(before, Taken(d).rows[|before|], c.next, cellsBefore, budgetBefore);
        deletedIndex, insertedIndex := deletedIndex + TakesLeft(kind), insertedIndex + TakesRight(kind);
        at := at + 1;
      }
      RunDone(Taken(d), hunk, budget);
      Intraline.HunkCellsWithinBudget(RowTexts(Taken(d).rows[c.next..]));
    }

    method AppendAlignedRows(c: Cursor, deleted: seq<Line>, inserted: seq<Line>) returns (d: Cursor)
      requires c.next <= |rows| && 0 < c.leftLine && 0 < c.rightLine
      modifies this`rows
      ensures d.next <= |rows| && 0 < d.leftLine && 0 < d.rightLine
      ensures Taken(d) == WithAlignedRows(old(Taken(c)), deleted, inserted)
    {
      var alignment := HunkAlignment.AlignHunkLines(deleted, inserted);
      HunkAlignment.AlignmentConsumesOnce(deleted, inserted);
      var cells;
      d, cells := AppendRunRows(c, alignment, deleted, inserted, |hunks|);
    }

    method AppendRun(c: Cursor, deleted: seq<Line>, inserted: seq<Line>) returns (d: Cursor)
      requires c.next <= |rows| && 0 < c.leftLine && 0 < c.rightLine && |deleted| + |inserted| > 0
      modifies this
      ensures d.next <= |rows| && 0 < d.leftLine && 0 < d.rightLine
      ensures Taken(d) == WithRun(old(Taken(c)), deleted, inserted)
    {
      hide WithAlignedRows;
      var hunkIndex := |hunks|;
      ghost var more := RunAddsRows(Taken(c), deleted, inserted);
      d := AppendAlignedRows(c, deleted, inserted);
      assert |rows[..d.next]| == c.next + |more|;
      hunks := hunks + [CompareHunk(hunkIndex, c.next, d.next - 1)];
    }

    method AppendOps(c: Cursor, ops: seq<DiffOp>) returns (d: Cursor)
      requires c.next <= |rows| && 0 < c.leftLine && 0 < c.rightLine
      modifies this
      ensures d.next <= |rows| && 0 < d.leftLine && 0 < d.rightLine
      ensures Taken(d) == WithOps(old(Taken(c)), ops)
    {
      hide WithRun, LeftLines, RightLines;
      d := c;
      var opIndex := 0;
      while opIndex < |ops|
        invariant opIndex <= |ops| && d.next <= |rows| && 0 < d.leftLine && 0 < d.rightLine
        invariant WithOps(Taken(d), ops[opIndex..]) == WithOps(old(Taken(c)), ops)
      {
        StepOfOps(Taken(d), ops, opIndex);
        if ops[opIndex].Equal? {
          d := AppendEqual(d, ops[opIndex].text, ops[opIndex].rightText);
          opIndex := opIndex + 1;
        } else {
          var end, deleted, inserted := CollectRun(ops, opIndex);
          d := AppendRun(d, deleted, inserted);
          opIndex := end;
        }
      }
    }

    method AppendPhantom(c: Cursor, left: bool, right: bool) returns (d: Cursor)
      requires c.next <= |rows|
      modifies this
      ensures d.next <= |rows| && Taken(d) == WithPhantom(old(Taken(c)), left, right)
    {
      if !left && !right {
        return c;
      }
      if left && right {
        d := AppendEqual(c, "", "");
        return;
      }
      if hunks != [] && hunks[|hunks| - 1].endRow + 1 == c.next {
        hunks := hunks[|hunks| - 1 := hunks[|hunks| - 1].(endRow := c.next)];
      } else {
        hunks := hunks + [CompareHunk(|hunks|, c.next, c.next)];
      }
      var row := CompareRow("", "", if left then c.leftLine else 0, if right then c.rightLine else 0,
                            if left then Intraline.Deleted else Intraline.Added, hunks[|hunks| - 1].index, NO_MARKS);
      PutRow(c.next, row);
      d := Cursor(c.next + 1, c.leftLine + (if left then 1 else 0), c.rightLine + (if right then 1 else 0));
    }

    /** Rebuilds the model in place.  Nothing of an earlier build is left in it. */
    method Rebuild(left: string, right: string, ignoreWhitespace: bool)
      modifies this
      ensures rows == BuildOf(left, right, ignoreWhitespace).rows
              && hunks == BuildOf(left, right, ignoreWhitespace).hunks
    {
      hunks := [];
      var leftLines := SplitAligned(left);
      var rightLines := SplitAligned(right);
      var m := TrimEqualEnds(WholeSlices(leftLines, rightLines), ignoreWhitespace);
      var ops := BuildLineDiffOps(leftLines[m.leftBegin..m.leftEnd], rightLines[m.rightBegin..m.rightEnd],
                                  ignoreWhitespace);
      var c := AppendEquals(Cursor(0, 1, 1), leftLines[..m.leftBegin], rightLines[..m.rightBegin]);
      LinesArePositive(m);
      c := AppendOps(c, ops);
      c := AppendEquals(c, leftLines[m.leftEnd..], rightLines[m.rightEnd..]);
      c := AppendPhantom(c, EndsInNewline(left), EndsInNewline(right));
      rows := rows[..c.next];
    }
  }

  lemma {:induction false} LinesArePositive(m: Slices)
    requires Matching(m)
    ensures WithPrefix(m).leftLine > 0 && WithPrefix(m).rightLine > 0
  {
    ShowsPrefix(m);
  }

  /** A side's lines without the phantom. */
  method SplitAligned(text: string) returns (lines: seq<Line>)
    ensures lines == Aligned(text)
  {
    lines := SplitLineViews(text);
    if EndsInNewline(text) && lines[|lines| - 1] == "" {
      lines := lines[..|lines| - 1];
    }
  }

  function RowTexts(rows: seq<CompareRow>): (texts: seq<Intraline.RowText>)
    ensures |texts| == |rows|
  {
    if rows == [] then [] else RowTexts(rows[..|rows| - 1]) + [RowTextOf(rows[|rows| - 1])]
  }

  /** One more row after the first `begin` costs its cells and its part of the budget. */
  lemma {:induction false} MoreCells(rows: seq<CompareRow>, row: CompareRow, begin: nat, cells: nat, budget: nat)
    requires begin <= |rows|
    requires Intraline.HunkCells(RowTexts(rows[begin..]), Intraline.MAX_HUNK_INTRALINE_TOTAL_CELLS) == (cells, budget)
    ensures Intraline.HunkCells(RowTexts((rows + [row])[begin..]), Intraline.MAX_HUNK_INTRALINE_TOTAL_CELLS)
         == (cells + Intraline.RowCells(RowTextOf(row), budget), Intraline.BudgetAfter(RowTextOf(row), budget))
  {
    hide Intraline.RowCells, Intraline.BudgetAfter, Intraline.HunkCells, RowTexts;
    DropThenAppend(rows, row, begin);
    RowTextsMore(rows[begin..], row);
    Intraline.HunkCellsMore(RowTexts(rows[begin..]), RowTextOf(row), Intraline.MAX_HUNK_INTRALINE_TOTAL_CELLS);
  }

  lemma {:induction false} RowTextsMore(rows: seq<CompareRow>, row: CompareRow)
    ensures RowTexts(rows + [row]) == RowTexts(rows) + [RowTextOf(row)]
  {
    assert (rows + [row])[..|rows + [row]| - 1] == rows;
  }

  lemma {:induction false} NoCells()
    ensures Intraline.HunkCells(RowTexts([]), Intraline.MAX_HUNK_INTRALINE_TOTAL_CELLS)
            == (0, Intraline.MAX_HUNK_INTRALINE_TOTAL_CELLS)
  {
  }

  lemma {:induction false} RunDone(b: Build, hunk: nat, budget: nat)
    ensures WithRunRows(b, [], [], [], hunk, budget) == b
  {
  }

  lemma {:induction false} StepOfRun(b: Build, kinds: seq<HunkAlignment.Kind>, at: nat, deleted: seq<Line>, d: nat,
                                     inserted: seq<Line>, i: nat,
                                     hunk: nat, budget: nat)
    requires at < |kinds| && d <= |deleted| && i <= |inserted|
    requires HunkAlignment.ConsumesOnce(kinds[at..], |deleted| - d, |inserted| - i)
    ensures d + TakesLeft(kinds[at]) <= |deleted| && i + TakesRight(kinds[at]) <= |inserted|
    ensures HunkAlignment.ConsumesOnce(kinds[at + 1..], |deleted| - d - TakesLeft(kinds[at]),
                                       |inserted| - i - TakesRight(kinds[at]))
    ensures var kind := kinds[at];
            var row := ChangedRow(kind, if kind.Insert? then "" else deleted[d],
                                  if kind.Delete? then "" else inserted[i], b.leftLine, b.rightLine, hunk, budget);
            WithRunRows(b, kinds[at..], deleted[d..], inserted[i..], hunk, budget)
            == WithRunRows(WithRow(b, row), kinds[at + 1..], deleted[d + TakesLeft(kind)..],
                           inserted[i + TakesRight(kind)..], hunk,
                           Intraline.BudgetAfter(RowTextOf(row), budget))
  {
    var kind := kinds[at];
    assert kinds[at..][0] == kind && kinds[at..][1..] == kinds[at + 1..];
    assert deleted[d..][TakesLeft(kind)..] == deleted[d + TakesLeft(kind)..];
    assert inserted[i..][TakesRight(kind)..] == inserted[i + TakesRight(kind)..];
  }

  /** The deleted and the inserted lines of the changed run at `begin`. */
  method CollectRun(ops: seq<DiffOp>, begin: nat) returns (end: nat, deleted: seq<Line>, inserted: seq<Line>)
    requires begin < |ops| && !ops[begin].Equal?
    ensures end == begin + RunLength(ops[begin..]) && begin < end <= |ops|
    ensures deleted == LeftLines(ops[begin..end]) && inserted == RightLines(ops[begin..end])
    ensures |deleted| + |inserted| > 0
  {
    hide RunLength;
    deleted, inserted, end := [], [], begin;
    while end < |ops| && !ops[end].Equal?
      invariant begin <= end <= |ops|
      invariant deleted == LeftLines(ops[begin..end]) && inserted == RightLines(ops[begin..end])
      invariant RunLength(ops[begin..]) == end - begin + RunLength(ops[end..])
    {
      OneMoreOp(ops, begin, end);
      OneLongerRun(ops, end);
      if ops[end].Delete? {
        deleted := deleted + [ops[end].text];
      } else {
        inserted := inserted + [ops[end].text];
      }
      end := end + 1;
    }
    RunHasLines(ops[begin..end]);
  }

  lemma {:induction false} OneLongerRun(ops: seq<DiffOp>, end: nat)
    requires end < |ops| && !ops[end].Equal?
    ensures RunLength(ops[end..]) == 1 + RunLength(ops[end + 1..])
  {
    assert ops[end..][1..] == ops[end + 1..];
  }

  lemma {:induction false} FirstOfOps(b: Build, ops: seq<DiffOp>)
    requires ops != []
    ensures WithOps(b, ops)
         == if ops[0].Equal? then WithOps(WithEqual(b, ops[0].text, ops[0].rightText), ops[1..])
            else
              var n := RunLength(ops);
              WithOps(WithRun(b, LeftLines(ops[..n]), RightLines(ops[..n])), ops[n..])
  {
  }

  lemma {:induction false} StepOfOps(b: Build, ops: seq<DiffOp>, at: nat)
    requires at < |ops|
    ensures ops[at].Equal? ==>
            WithOps(b, ops[at..])
            == WithOps(WithEqual(b, ops[at].text, ops[at].rightText), ops[at + 1..])
    ensures !ops[at].Equal? ==>
              var end := at + RunLength(ops[at..]);
              end <= |ops| && WithOps(b, ops[at..]) == WithOps(WithRun(b, LeftLines(ops[at..end]),
                      RightLines(ops[at..end])), ops[end..])
  {
    hide WithRun, WithOps, LeftLines, RightLines;
    FirstOfOps(b, ops[at..]);
    assert ops[at..][0] == ops[at] && ops[at..][1..] == ops[at + 1..];
    var n := RunLength(ops[at..]);
    assert ops[at..][..n] == ops[at..at + n] && ops[at..][n..] == ops[at + n..];
  }
}
