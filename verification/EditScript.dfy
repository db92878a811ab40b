/** Line edit scripts: what a diff is, and what makes one correct. */
module EditScript {
  import opened Basics
  import opened Text

  datatype DiffOp =
    | Equal(text: Line, rightText: Line)
    | Delete(text: Line)
    | Insert(text: Line)

  function LeftOf(op: DiffOp): seq<Line> {
    if op.Insert? then [] else [op.text]
  }

  function RightOf(op: DiffOp): seq<Line> {
    match op
    case Equal(_, rightText) => [rightText]
    case Delete(_) => []
    case Insert(text) => [text]
  }

  /** The texts of the Equal and Delete operations, in order. */
  function LeftLines(ops: seq<DiffOp>): seq<Line> {
    if ops == [] then [] else LeftOf(ops[0]) + LeftLines(ops[1..])
  }

  /** The texts of the Equal and Insert operations, in order. */
  function RightLines(ops: seq<DiffOp>): seq<Line> {
    if ops == [] then [] else RightOf(ops[0]) + RightLines(ops[1..])
  }

  ghost predicate PairsMatch(ops: seq<DiffOp>, ignoreWhitespace: bool) {
    forall k | 0 <= k < |ops| && ops[k].Equal? ::
      LinesEqualForDiff(ops[k].text, ops[k].rightText, ignoreWhitespace)
  }

  /** `ops` turns `left` into `right`, and pairs only lines that count as equal. */
  ghost predicate ValidScript(ops: seq<DiffOp>, left: seq<Line>, right: seq<Line>, ignoreWhitespace: bool) {
    && LeftLines(ops) == left
    && RightLines(ops) == right
    && PairsMatch(ops, ignoreWhitespace)
  }

  lemma {:induction false} LinesCons(op: DiffOp, ops: seq<DiffOp>)
    ensures LeftLines([op] + ops) == LeftOf(op) + LeftLines(ops)
    ensures RightLines([op] + ops) == RightOf(op) + RightLines(ops)
  {
    assert ([op] + ops)[1..] == ops;
  }

  lemma {:induction false} OneOp(op: DiffOp)
    ensures LeftLines([op]) == LeftOf(op) && RightLines([op]) == RightOf(op)
  {
    LinesCons(op, []);
    assert [op] + [] == [op];
    assert LeftOf(op) + [] == LeftOf(op) && RightOf(op) + [] == RightOf(op);
  }

  lemma {:induction false} OneMoreOp(ops: seq<DiffOp>, begin: nat, end: nat)
    requires begin <= end < |ops|
    ensures LeftLines(ops[begin..end + 1]) == LeftLines(ops[begin..end]) + LeftOf(ops[end])
    ensures RightLines(ops[begin..end + 1]) == RightLines(ops[begin..end]) + RightOf(ops[end])
  {
    SliceOneMore(ops, begin, end);
    hide LeftLines, RightLines, LeftOf, RightOf;
    LeftConcat(ops[begin..end], [ops[end]]);
    RightConcat(ops[begin..end], [ops[end]]);
    OneOp(ops[end]);
  }

  lemma {:induction false} LeftConcat(a: seq<DiffOp>, b: seq<DiffOp>)
    ensures LeftLines(a + b) == LeftLines(a) + LeftLines(b)
  {
    if a == [] {
      assert a + b == b;
    } else {
      var rest := a[1..] + b;
      assert a + b == [a[0]] + rest;
      calc {
        LeftLines([a[0]] + rest);
        { LinesCons(a[0], rest); }
        LeftOf(a[0]) + LeftLines(rest);
        { LeftConcat(a[1..], b); }
        LeftOf(a[0]) + (LeftLines(a[1..]) + LeftLines(b));
        LeftLines(a) + LeftLines(b);
      }
    }
  }

  lemma {:induction false} RightConcat(a: seq<DiffOp>, b: seq<DiffOp>)
    ensures RightLines(a + b) == RightLines(a) + RightLines(b)
  {
    if a == [] {
      assert a + b == b;
    } else {
      var rest := a[1..] + b;
      assert a + b == [a[0]] + rest;
      calc {
        RightLines([a[0]] + rest);
        { LinesCons(a[0], rest); }
        RightOf(a[0]) + RightLines(rest);
        { RightConcat(a[1..], b); }
        RightOf(a[0]) + (RightLines(a[1..]) + RightLines(b));
        RightLines(a) + RightLines(b);
      }
    }
  }

  /** Scripts of adjacent slices compose. */
  lemma {:induction false} ValidConcat(a: seq<DiffOp>, aLeft: seq<Line>, aRight: seq<Line>,
                    b: seq<DiffOp>, bLeft: seq<Line>, bRight: seq<Line>, ignoreWhitespace: bool)
    requires ValidScript(a, aLeft, aRight, ignoreWhitespace) && ValidScript(b, bLeft, bRight, ignoreWhitespace)
    ensures ValidScript(a + b, aLeft + bLeft, aRight + bRight, ignoreWhitespace)
  {
    LeftConcat(a, b);
    RightConcat(a, b);
  }

  lemma {:induction false} ValidSingle(op: DiffOp, ignoreWhitespace: bool)
    requires op.Equal? ==> LinesEqualForDiff(op.text, op.rightText, ignoreWhitespace)
    ensures ValidScript([op], LeftOf(op), RightOf(op), ignoreWhitespace)
  {
    ValidCons(op, [], [], [], ignoreWhitespace);
    assert [op] + [] == [op] && LeftOf(op) + [] == LeftOf(op) && RightOf(op) + [] == RightOf(op);
  }

  lemma {:induction false} ValidConcat3(a: seq<DiffOp>, aLeft: seq<Line>, aRight: seq<Line>,
                     b: seq<DiffOp>, bLeft: seq<Line>, bRight: seq<Line>,
                     c: seq<DiffOp>, cLeft: seq<Line>, cRight: seq<Line>, ignoreWhitespace: bool)
    requires ValidScript(a, aLeft, aRight, ignoreWhitespace) && ValidScript(b, bLeft, bRight, ignoreWhitespace)
    requires ValidScript(c, cLeft, cRight, ignoreWhitespace)
    ensures ValidScript(a + b + c, aLeft + bLeft + cLeft, aRight + bRight + cRight, ignoreWhitespace)
  {
    ValidConcat(a, aLeft, aRight, b, bLeft, bRight, ignoreWhitespace);
    ValidConcat(a + b, aLeft + bLeft, aRight + bRight, c, cLeft, cRight, ignoreWhitespace);
  }

  /** Scripts on either side of a pair of equal lines compose. */
  lemma {:induction false} ValidJoin(a: seq<DiffOp>, aLeft: seq<Line>, aRight: seq<Line>, x: Line, y: Line,
                  c: seq<DiffOp>, cLeft: seq<Line>, cRight: seq<Line>, ignoreWhitespace: bool)
    requires ValidScript(a, aLeft, aRight, ignoreWhitespace) && ValidScript(c, cLeft, cRight, ignoreWhitespace)
    requires LinesEqualForDiff(x, y, ignoreWhitespace)
    ensures ValidScript(a + [Equal(x, y)] + c, aLeft + [x] + cLeft, aRight + [y] + cRight, ignoreWhitespace)
  {
    ValidSingle(Equal(x, y), ignoreWhitespace);
    ValidConcat3(a, aLeft, aRight, [Equal(x, y)], [x], [y], c, cLeft, cRight, ignoreWhitespace);
  }

  lemma {:induction false} SliceInThree<T>(xs: seq<T>, a: nat, b: nat, c: nat, d: nat)
    requires a <= b <= c <= d <= |xs|
    ensures xs[a..d] == xs[a..b] + xs[b..c] + xs[c..d]
  {
  }

  lemma {:induction false} ValidCons(op: DiffOp, ops: seq<DiffOp>, left: seq<Line>, right: seq<Line>,
                                     ignoreWhitespace: bool)
    requires ValidScript(ops, left, right, ignoreWhitespace)
    requires op.Equal? ==> LinesEqualForDiff(op.text, op.rightText, ignoreWhitespace)
    ensures ValidScript([op] + ops, LeftOf(op) + left, RightOf(op) + right, ignoreWhitespace)
  {
    LinesCons(op, ops);
  }

  function Deletes(lines: seq<Line>): seq<DiffOp> {
    if lines == [] then [] else Deletes(lines[..|lines| - 1]) + [Delete(lines[|lines| - 1])]
  }

  function Inserts(lines: seq<Line>): seq<DiffOp> {
    if lines == [] then [] else Inserts(lines[..|lines| - 1]) + [Insert(lines[|lines| - 1])]
  }

  function EqualPairs(left: seq<Line>, right: seq<Line>): seq<DiffOp>
    requires |left| == |right|
  {
    if left == [] then []
    else EqualPairs(left[..|left| - 1], right[..|left| - 1]) + [Equal(left[|left| - 1], right[|left| - 1])]
  }

  lemma {:induction false} DeletesValid(lines: seq<Line>, ignoreWhitespace: bool)
    ensures ValidScript(Deletes(lines), lines, [], ignoreWhitespace)
  {
    if lines != [] {
      var (init, last) := (lines[..|lines| - 1], lines[|lines| - 1]);
      DeletesValid(init, ignoreWhitespace);
      ValidSingle(Delete(last), ignoreWhitespace);
      ValidConcat(Deletes(init), init, [], [Delete(last)], [last], [], ignoreWhitespace);
      assert lines == init + [last];
    }
  }

  lemma {:induction false} InsertsValid(lines: seq<Line>, ignoreWhitespace: bool)
    ensures ValidScript(Inserts(lines), [], lines, ignoreWhitespace)
  {
    if lines != [] {
      hide ValidScript;
      var (init, last) := (lines[..|lines| - 1], lines[|lines| - 1]);
      InsertsValid(init, ignoreWhitespace);
      ValidSingle(Insert(last), ignoreWhitespace);
      ValidConcat(Inserts(init), [], init, [Insert(last)], [], [last], ignoreWhitespace);
      assert lines == init + [last];
    }
  }

  ghost predicate AllEqual(left: seq<Line>, right: seq<Line>, ignoreWhitespace: bool) {
    && |left| == |right|
    && forall k | 0 <= k < |left| :: LinesEqualForDiff(left[k], right[k], ignoreWhitespace)
  }

  lemma {:induction false} EqualPairsValid(left: seq<Line>, right: seq<Line>, ignoreWhitespace: bool)
    requires AllEqual(left, right, ignoreWhitespace)
    ensures ValidScript(EqualPairs(left, right), left, right, ignoreWhitespace)
  {
    if left != [] {
      var n := |left| - 1;
      EqualPairsValid(left[..n], right[..n], ignoreWhitespace);
      ValidJoin(EqualPairs(left[..n], right[..n]), left[..n], right[..n], left[n], right[n], [], [], [],
                ignoreWhitespace);
      assert left == left[..n] + [left[n]] + [] && right == right[..n] + [right[n]] + [];
      assert EqualPairs(left, right) == EqualPairs(left[..n], right[..n]) + [Equal(left[n], right[n])] + [];
    }
  }

  /** Operations that only delete or only insert. */
  lemma {:induction false} CoarseHasNoEqual(lines: seq<Line>)
    ensures forall k | 0 <= k < |Deletes(lines)| :: Deletes(lines)[k].Delete?
    ensures forall k | 0 <= k < |Inserts(lines)| :: Inserts(lines)[k].Insert?
  {
    if lines != [] {
      CoarseHasNoEqual(lines[..|lines| - 1]);
    }
  }
}
