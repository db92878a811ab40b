/** One side of a three-way merge as interval changes to the base, read off its diff. */
module SideChanges {
  import opened Basics
  import opened Text
  import opened EditScript
  import opened LineDiff

  /** Base lines `[baseStart, baseEnd)` are replaced by `lines`. */
  datatype SideChange = SideChange(baseStart: nat, baseEnd: nat, lines: seq<Line>)

  // ----- Reading changes off a script -----

  /** Where the run of Delete and Insert operations at `k` ends. */
  function ChangeRunEnd(ops: seq<DiffOp>, k: nat): (n: nat)
    requires k <= |ops|
    ensures k <= n <= |ops|
    ensures n < |ops| ==> ops[n].Equal?
    decreases |ops| - k
  {
    if k == |ops| || ops[k].Equal? then k else ChangeRunEnd(ops, k + 1)
  }

  function DeletedIn(ops: seq<DiffOp>, k: nat, n: nat): nat
    requires k <= n <= |ops|
  {
    if k == n then 0 else DeletedIn(ops, k, n - 1) + if ops[n - 1].Delete? then 1 else 0
  }

  function InsertedIn(ops: seq<DiffOp>, k: nat, n: nat): seq<Line>
    requires k <= n <= |ops|
  {
    if k == n then [] else InsertedIn(ops, k, n - 1) + if ops[n - 1].Insert? then [ops[n - 1].text] else []
  }

  /** The changes of a script from operation `k` on, which stands at base line `baseLine`. */
  function ChangesFrom(ops: seq<DiffOp>, k: nat, baseLine: nat): seq<SideChange>
    requires k <= |ops|
    decreases |ops| - k
  {
    if k == |ops| then []
    else if ops[k].Equal? then ChangesFrom(ops, k + 1, baseLine + 1)
    else
      var n := ChangeRunEnd(ops, k);
      var end := baseLine + DeletedIn(ops, k, n);
      [SideChange(baseLine, end, InsertedIn(ops, k, n))] + ChangesFrom(ops, n, end)
  }

  function ChangesOf(base: seq<Line>, variant: seq<Line>): seq<SideChange> {
    ChangesFrom(LineDiffOps(base, variant, false), 0, 0)
  }

  // ----- Replaying changes -----

  /** Changes that ascend inside `[cursor, end]` without overlapping. */
  ghost predicate Fit(changes: seq<SideChange>, cursor: nat, end: nat)
    decreases |changes|
  {
    if changes == [] then cursor <= end
    else cursor <= changes[0].baseStart <= changes[0].baseEnd <= end && Fit(changes[1..], changes[0].baseEnd, end)
  }

  /** At least one base line that the side keeps separates consecutive changes. */
  ghost predicate Separated(changes: seq<SideChange>) {
    forall k | 0 < k < |changes| :: changes[k - 1].baseEnd < changes[k].baseStart
  }

  function Clamp(x: nat, low: nat, high: nat): nat
    requires low <= high
  {
    if x < low then low else if high < x then high else x
  }

  /** `base[cursor..end]` with the changes applied. */
  function Apply(base: seq<Line>, cursor: nat, end: nat, changes: seq<SideChange>): seq<Line>
    requires cursor <= end <= |base|
    decreases |changes|
  {
    if changes == [] then base[cursor..end]
    else
      var kept := Clamp(changes[0].baseStart, cursor, end);
      base[cursor..kept] + changes[0].lines + Apply(base, Clamp(changes[0].baseEnd, kept, end), end, changes[1..])
  }

  lemma {:induction false} FitBounds(changes: seq<SideChange>, cursor: nat, end: nat)
    requires Fit(changes, cursor, end)
    ensures cursor <= end
    ensures forall k | 0 <= k < |changes| ::
      cursor <= changes[k].baseStart <= changes[k].baseEnd <= end
    decreases |changes|
  {
    if changes != [] {
      FitBounds(changes[1..], changes[0].baseEnd, end);
    }
  }

  /** Base lines before the first change are kept. */
  lemma {:induction false} ApplyFrom(base: seq<Line>, cursor: nat, later: nat, end: nat, changes: seq<SideChange>)
    requires cursor <= later <= end <= |base| && Fit(changes, later, end)
    ensures Apply(base, cursor, end, changes) == base[cursor..later] + Apply(base, later, end, changes)
  {
    if changes == [] {
      SliceSplits(base, cursor, later, end);
    } else {
      var c := changes[0];
      FitBounds(changes, later, end);
      ApplyStep(base, cursor, end, changes);
      ApplyStep(base, later, end, changes);
      SliceSplits(base, cursor, later, c.baseStart);
      AssociateThree(base[cursor..later], base[later..c.baseStart], c.lines, Apply(base, c.baseEnd, end, changes[1..]));
    }
  }

  /** Changes on either side of `middle` apply independently. */
  lemma {:induction false} ApplySplit(base: seq<Line>, cursor: nat, middle: nat, end: nat, xs: seq<SideChange>,
                                      ys: seq<SideChange>)
    requires end <= |base| && Fit(xs, cursor, middle) && Fit(ys, middle, end)
    ensures cursor <= middle <= end
    ensures Apply(base, cursor, end, xs + ys) == Apply(base, cursor, middle, xs) + Apply(base, middle, end, ys)
    decreases |xs|
  {
    FitBounds(xs, cursor, middle);
    FitBounds(ys, middle, end);
    if xs == [] {
      assert xs + ys == ys;
      ApplyFrom(base, cursor, middle, end, ys);
    } else {
      var c := xs[0];
      assert (xs + ys)[1..] == xs[1..] + ys && (xs + ys)[0] == c;
      ApplySplit(base, c.baseEnd, middle, end, xs[1..], ys);
      hide Apply, Fit;
      ApplyStep(base, cursor, end, xs + ys);
      ApplyStep(base, cursor, middle, xs);
      Associate(base[cursor..c.baseStart] + c.lines, Apply(base, c.baseEnd, middle, xs[1..]),
                Apply(base, middle, end, ys));
    }
  }

  lemma {:induction false} ApplyStep(base: seq<Line>, cursor: nat, end: nat, changes: seq<SideChange>)
    requires end <= |base| && changes != []
    requires cursor <= changes[0].baseStart <= changes[0].baseEnd <= end
    ensures Apply(base, cursor, end, changes)
         == base[cursor..changes[0].baseStart] + changes[0].lines + Apply(base, changes[0].baseEnd, end, changes[1..])
  {
  }

  /** A base that goes on past the changes keeps its tail. */
  lemma {:induction false} ApplyExtend(base: seq<Line>, extra: seq<Line>, cursor: nat, changes: seq<SideChange>)
    requires Fit(changes, cursor, |base|)
    ensures cursor <= |base|
    ensures Apply(base + extra, cursor, |base| + |extra|, changes) == Apply(base, cursor, |base|, changes) + extra
    decreases |changes|
  {
    FitBounds(changes, cursor, |base|);
    if changes == [] {
      assert (base + extra)[cursor..|base| + |extra|] == base[cursor..|base|] + extra;
    } else {
      var c := changes[0];
      ApplyExtend(base, extra, c.baseEnd, changes[1..]);
      var rest := Apply(base, c.baseEnd, |base|, changes[1..]);
      calc {
        Apply(base + extra, cursor, |base| + |extra|, changes);
        { ApplyStep(base + extra, cursor, |base| + |extra|, changes); }
        (base + extra)[cursor..c.baseStart] + c.lines + (rest + extra);
        { assert (base + extra)[cursor..c.baseStart] == base[cursor..c.baseStart]; }
        base[cursor..c.baseStart] + c.lines + rest + extra;
        { ApplyStep(base, cursor, |base|, changes); }
        Apply(base, cursor, |base|, changes) + extra;
      }
    }
  }

  // ----- A side's changes rebuild the side -----

  lemma {:induction false} ChangesStartAfter(ops: seq<DiffOp>, k: nat, baseLine: nat)
    requires k <= |ops|
    ensures ChangesFrom(ops, k, baseLine) != [] ==>
      ChangesFrom(ops, k, baseLine)[0].baseStart >= baseLine + if ops[k].Equal? then 1 else 0
    decreases |ops| - k
  {
    if k < |ops| && ops[k].Equal? {
      ChangesStartAfter(ops, k + 1, baseLine + 1);
    }
  }

  lemma {:induction false} RunHasNoPairs(ops: seq<DiffOp>, k: nat)
    requires k <= |ops|
    ensures forall m | k <= m < ChangeRunEnd(ops, k) :: !ops[m].Equal?
    decreases |ops| - k
  {
    if k < |ops| && !ops[k].Equal? {
      RunHasNoPairs(ops, k + 1);
    }
  }

  /** What a run deletes and inserts is what its operations spell. */
  lemma {:induction false} RunSpells(ops: seq<DiffOp>, k: nat, n: nat)
    requires k <= n <= |ops| && forall m | k <= m < n :: !ops[m].Equal?
    ensures |LeftLines(ops[k..n])| == DeletedIn(ops, k, n)
    ensures RightLines(ops[k..n]) == InsertedIn(ops, k, n)
  {
    if k == n {
      assert ops[k..n] == [];
    } else {
      var last := ops[n - 1];
      RunSpells(ops, k, n - 1);
      OneMoreOp(ops, k, n - 1);
      hide LeftLines, RightLines;
      assert LeftLines(ops[k..n]) == LeftLines(ops[k..n - 1]) + LeftOf(last);
      assert RightLines(ops[k..n]) == RightLines(ops[k..n - 1]) + RightOf(last);
    }
  }

  lemma {:induction false} SpellsFrom(ops: seq<DiffOp>, k: nat, n: nat)
    requires k <= n <= |ops|
    ensures LeftLines(ops[k..]) == LeftLines(ops[k..n]) + LeftLines(ops[n..])
    ensures RightLines(ops[k..]) == RightLines(ops[k..n]) + RightLines(ops[n..])
  {
    assert ops[k..] == ops[k..n] + ops[n..];
    LeftConcat(ops[k..n], ops[n..]);
    RightConcat(ops[k..n], ops[n..]);
  }

  lemma {:induction false} DropConcat<T>(whole: seq<T>, a: seq<T>, b: seq<T>)
    requires whole == a + b
    ensures whole[|a|..] == b
  {
  }

  /** From operation `k` on, a valid exact script's changes fit the base, are separated, and replay
      the right side. */
  lemma {:induction false} ChangesReplay(ops: seq<DiffOp>, k: nat, base: seq<Line>, baseLine: nat)
    requires k <= |ops| && baseLine <= |base| && LeftLines(ops[k..]) == base[baseLine..] && PairsMatch(ops, false)
    ensures Fit(ChangesFrom(ops, k, baseLine), baseLine, |base|) && Separated(ChangesFrom(ops, k, baseLine))
    ensures Apply(base, baseLine, |base|, ChangesFrom(ops, k, baseLine)) == RightLines(ops[k..])
    decreases |ops| - k, 1
  {
    if k == |ops| {
      assert base[baseLine..] == [];
    } else if ops[k].Equal? {
      ReplayPair(ops, k, base, baseLine);
    } else {
      ReplayRun(ops, k, base, baseLine);
    }
  }

  lemma {:induction false} ReplayPair(ops: seq<DiffOp>, k: nat, base: seq<Line>, baseLine: nat)
    requires k < |ops| && baseLine <= |base| && LeftLines(ops[k..]) == base[baseLine..] && PairsMatch(ops, false)
    requires ops[k].Equal?
    ensures Fit(ChangesFrom(ops, k, baseLine), baseLine, |base|) && Separated(ChangesFrom(ops, k, baseLine))
    ensures Apply(base, baseLine, |base|, ChangesFrom(ops, k, baseLine)) == RightLines(ops[k..])
    decreases |ops| - k, 0
  {
    assert ops[k..][1..] == ops[k + 1..];
    assert LeftLines(ops[k..]) == [ops[k].text] + LeftLines(ops[k + 1..]);
    DropConcat(base[baseLine..], [ops[k].text], LeftLines(ops[k + 1..]));
    assert base[baseLine] == base[baseLine..][0] == ops[k].text;
    assert base[baseLine..][1..] == base[baseLine + 1..];
    ChangesReplay(ops, k + 1, base, baseLine + 1);
    ApplyFrom(base, baseLine, baseLine + 1, |base|, ChangesFrom(ops, k + 1, baseLine + 1));
    assert base[baseLine..baseLine + 1] == [base[baseLine]];
  }

  /** What the run at operation `k` takes from the base and leaves of it, and what it inserts. */
  lemma {:induction false} RunLeaves(ops: seq<DiffOp>, k: nat, base: seq<Line>, baseLine: nat)
    requires k < |ops| && baseLine <= |base| && LeftLines(ops[k..]) == base[baseLine..] && !ops[k].Equal?
    ensures var n := ChangeRunEnd(ops, k);
            var end := baseLine + DeletedIn(ops, k, n);
            && k < n && end <= |base| && LeftLines(ops[n..]) == base[end..]
            && RightLines(ops[k..]) == InsertedIn(ops, k, n) + RightLines(ops[n..])
  {
    hide LeftLines, RightLines, InsertedIn, DeletedIn;
    var n := ChangeRunEnd(ops, k);
    var end := baseLine + DeletedIn(ops, k, n);
    RunHasNoPairs(ops, k);
    RunSpells(ops, k, n);
    SpellsFrom(ops, k, n);
    DropConcat(base[baseLine..], LeftLines(ops[k..n]), LeftLines(ops[n..]));
    assert base[baseLine..][end - baseLine..] == base[end..];
  }

  lemma {:induction false} RunIsFirstChange(ops: seq<DiffOp>, k: nat, baseLine: nat)
    requires k < |ops| && !ops[k].Equal?
    ensures var n := ChangeRunEnd(ops, k);
            var end := baseLine + DeletedIn(ops, k, n);
            var later := ChangesFrom(ops, n, end);
            && ChangesFrom(ops, k, baseLine) == [SideChange(baseLine, end, InsertedIn(ops, k, n))] + later
            && (later != [] ==> n < |ops| && ops[n].Equal?)
  {
  }

  lemma {:induction false} ReplayRun(ops: seq<DiffOp>, k: nat, base: seq<Line>, baseLine: nat)
    requires k < |ops| && baseLine <= |base| && LeftLines(ops[k..]) == base[baseLine..] && PairsMatch(ops, false)
    requires !ops[k].Equal?
    ensures Fit(ChangesFrom(ops, k, baseLine), baseLine, |base|) && Separated(ChangesFrom(ops, k, baseLine))
    ensures Apply(base, baseLine, |base|, ChangesFrom(ops, k, baseLine)) == RightLines(ops[k..])
    decreases |ops| - k, 0
  {
    hide LinesEqualForDiff, PairsMatch, Apply, Fit, Separated, LeftLines, RightLines, ChangesFrom, InsertedIn,
      DeletedIn, ChangeRunEnd;
    var n := ChangeRunEnd(ops, k);
    var end := baseLine + DeletedIn(ops, k, n);
    var change, later := SideChange(baseLine, end, InsertedIn(ops, k, n)), ChangesFrom(ops, n, end);
    RunLeaves(ops, k, base, baseLine);
    RunIsFirstChange(ops, k, baseLine);
    ChangesReplay(ops, n, base, end);
    ChangesStartAfter(ops, n, end);
    FitBounds(later, end, |base|);
    PrependFits(change, later, |base|);
    PrependApplies(change, later, base);
  }

  lemma {:induction false} PrependFits(change: SideChange, later: seq<SideChange>, end: nat)
    requires change.baseStart <= change.baseEnd && Fit(later, change.baseEnd, end) && Separated(later)
    requires later != [] ==> change.baseEnd < later[0].baseStart
    ensures Fit([change] + later, change.baseStart, end) && Separated([change] + later)
  {
    FitBounds(later, change.baseEnd, end);
    assert ([change] + later)[1..] == later;
  }

  lemma {:induction false} PrependApplies(change: SideChange, later: seq<SideChange>, base: seq<Line>)
    requires change.baseStart <= change.baseEnd <= |base|
    ensures Apply(base, change.baseStart, |base|, [change] + later)
         == change.lines + Apply(base, change.baseEnd, |base|, later)
  {
    var rest := Apply(base, change.baseEnd, |base|, later);
    calc {
      Apply(base, change.baseStart, |base|, [change] + later);
      { ApplyStep(base, change.baseStart, |base|, [change] + later); assert ([change] + later)[1..] == later; }
      base[change.baseStart..change.baseStart] + change.lines + rest;
      { assert base[change.baseStart..change.baseStart] == []; }
      [] + change.lines + rest;
      change.lines + rest;
    }
  }

  /** A side's changes fit the base, never touch each other, and turn the base into the side. */
  lemma {:induction false} ChangesRebuildSide(base: seq<Line>, variant: seq<Line>)
    ensures Fit(ChangesOf(base, variant), 0, |base|) && Separated(ChangesOf(base, variant))
    ensures Apply(base, 0, |base|, ChangesOf(base, variant)) == variant
  {
    var ops := LineDiffOps(base, variant, false);
    LineDiffValid(base, variant, false);
    assert base[0..] == base && ops[0..] == ops;
    ChangesReplay(ops, 0, base, 0);
  }

  lemma {:induction false} NoChangesInPairs(ops: seq<DiffOp>, k: nat, baseLine: nat)
    requires k <= |ops| && forall m | 0 <= m < |ops| :: ops[m].Equal?
    ensures ChangesFrom(ops, k, baseLine) == []
    decreases |ops| - k
  {
    if k < |ops| {
      NoChangesInPairs(ops, k + 1, baseLine + 1);
    }
  }

  lemma {:induction false} EqualPairsAreEqual(left: seq<Line>, right: seq<Line>)
    requires |left| == |right|
    ensures forall k | 0 <= k < |EqualPairs(left, right)| :: EqualPairs(left, right)[k].Equal?
  {
    if left != [] {
      EqualPairsAreEqual(left[..|left| - 1], right[..|left| - 1]);
    }
  }

  /** An unchanged side has no changes. */
  lemma {:induction false} SameHasNoChanges(base: seq<Line>)
    ensures ChangesOf(base, base) == []
  {
    LineDiffOfSame(base, false);
    EqualPairsAreEqual(base, base);
    NoChangesInPairs(EqualPairs(base, base), 0, 0);
  }

  // ----- The algorithms -----

  method BuildSideChanges(base: seq<Line>, variant: seq<Line>) returns (changes: seq<SideChange>)
    ensures changes == ChangesOf(base, variant)
  {
    hide LineDiffOps;
    var ops := BuildLineDiffOps(base, variant, false);
    changes := [];
    var baseLine, opIndex := 0, 0;
    while opIndex < |ops|
      invariant 0 <= opIndex <= |ops|
      invariant changes + ChangesFrom(ops, opIndex, baseLine) == ChangesFrom(ops, 0, 0)
    {
      if ops[opIndex].Equal? {
        baseLine := baseLine + 1;
        opIndex := opIndex + 1;
        continue;
      }
      var change, next := ReadRun(ops, opIndex, baseLine);
      changes := changes + [change];
      baseLine := change.baseEnd;
      opIndex := next;
    }
  }

  /** The maximal run of Delete and Insert operations from `begin` on, as one change. */
  method ReadRun(ops: seq<DiffOp>, begin: nat, baseStart: nat) returns (change: SideChange, next: nat)
    requires begin < |ops| && !ops[begin].Equal?
    ensures begin < next == ChangeRunEnd(ops, begin)
    ensures change == SideChange(baseStart, baseStart + DeletedIn(ops, begin, next), InsertedIn(ops, begin, next))
  {
    next := begin;
    var baseLine, lines: seq<Line> := baseStart, [];
    while next < |ops| && !ops[next].Equal?
      invariant begin <= next <= |ops|
      invariant ChangeRunEnd(ops, next) == ChangeRunEnd(ops, begin)
      invariant baseLine == baseStart + DeletedIn(ops, begin, next)
      invariant lines == InsertedIn(ops, begin, next)
    {
      if ops[next].Delete? {
        baseLine := baseLine + 1;
      } else {
        lines := lines + [ops[next].text];
      }
      next := next + 1;
    }
    change := SideChange(baseStart, baseLine, lines);
  }

  method AppendLines(lines: seq<Line>, base: seq<Line>, from: nat, to: nat) returns (out: seq<Line>)
    requires from <= to <= |base|
    ensures out == lines + base[from..to]
  {
    out := lines;
    for line := from to to
      invariant out == lines + base[from..line]
    {
      out := out + [base[line]];
    }
  }

  /** The replay, on changes already in order. */
  method ApplyInOrder(base: seq<Line>, start: nat, end: nat, changes: seq<SideChange>) returns (lines: seq<Line>)
    requires start <= end <= |base|
    ensures lines == Apply(base, start, end, changes)
  {
    lines := [];
    var cursor := start;
    assert changes[0..] == changes;
    for k := 0 to |changes|
      invariant start <= cursor <= end
      invariant lines + Apply(base, cursor, end, changes[k..]) == Apply(base, start, end, changes)
    {
      var change := changes[k];
      assert changes[k..][1..] == changes[k + 1..];
      var unchangedEnd := Clamp(change.baseStart, cursor, end);
      ghost var rest := Apply(base, Clamp(change.baseEnd, unchangedEnd, end), end, changes[k + 1..]);
      AssociateThree(lines, base[cursor..unchangedEnd], change.lines, rest);
      lines := AppendLines(lines, base, cursor, unchangedEnd);
      lines := lines + change.lines;
      cursor := Clamp(change.baseEnd, unchangedEnd, end);
    }
    lines := AppendLines(lines, base, cursor, end);
  }
}
