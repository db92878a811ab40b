/** Which lines a merge side's changes leave alone: exactly those its line diff pairs. */
module SideChangeLaws {
  import opened Text
  import opened EditScript
  import opened CommonSubsequence
  import opened ExactAlignment
  import opened LineDiff
  import opened LineDiffLaws
  import opened SideChanges

  /** Lines `[i, end)` paired with those from `j` on. */
  function Run(i: nat, end: nat, j: nat): (pairs: seq<Pair>)
    requires i <= end
    ensures |pairs| == end - i && forall k | 0 <= k < |pairs| :: pairs[k] == (i + k, j + k)
    decreases end - i
  {
    if i == end then [] else [(i, j)] + Run(i + 1, end, j + 1)
  }

  /** The base lines from `i` on that no change covers, each with the line of the side, from `j` on, that it is. */
  function Untouched(changes: seq<SideChange>, i: nat, end: nat, j: nat): seq<Pair>
    requires Fit(changes, i, end)
    decreases |changes|
  {
    if changes == [] then Run(i, end, j)
    else
      Run(i, changes[0].baseStart, j)
      + Untouched(changes[1..], changes[0].baseEnd, end, j + changes[0].baseStart - i + |changes[0].lines|)
  }

  lemma {:induction false} UntouchedFirst(changes: seq<SideChange>, i: nat, end: nat, j: nat)
    requires Fit(changes, i + 1, end)
    ensures Fit(changes, i, end)
    ensures Untouched(changes, i, end, j) == [(i, j)] + Untouched(changes, i + 1, end, j + 1)
  {
    if changes != [] {
      FitBounds(changes, i + 1, end);
    }
  }

  lemma {:induction false} UntouchedAfter(change: SideChange, later: seq<SideChange>, end: nat, j: nat)
    requires Fit([change] + later, change.baseStart, end)
    ensures Fit(later, change.baseEnd, end)
    ensures Untouched([change] + later, change.baseStart, end, j)
         == Untouched(later, change.baseEnd, end, j + |change.lines|)
  {
    assert ([change] + later)[1..] == later;
  }

  lemma {:induction false} UntouchedFrom(ops: seq<DiffOp>, k: nat, base: seq<Line>, i: nat, j: nat)
    requires k <= |ops| && i <= |base| && LeftLines(ops[k..]) == base[i..] && PairsMatch(ops, false)
    ensures Fit(ChangesFrom(ops, k, i), i, |base|)
    ensures Untouched(ChangesFrom(ops, k, i), i, |base|, j) == EqualPositions(ops[k..], i, j)
    decreases |ops| - k
  {
    hide PairsMatch, Untouched, EqualPositions, LeftLines, RightLines, Fit, Separated, Apply, DeletedIn, InsertedIn,
         ChangeRunEnd;
    ChangesReplay(ops, k, base, i);
    if k == |ops| {
      assert ops[k..] == [];
      NothingUntouched(base, i, j);
      NoEqualPositions([], i, j);
    } else if ops[k].Equal? {
      var rest := ops[k..];
      OneLeft(rest);
      assert rest[1..] == ops[k + 1..] && base[i..][1..] == base[i + 1..];
      UntouchedFrom(ops, k + 1, base, i + 1, j + 1);
      UntouchedFirst(ChangesFrom(ops, k + 1, i + 1), i, |base|, j);
      EqualPosition(rest, i, j);
    } else {
      var n := ChangeRunEnd(ops, k);
      var end := i + DeletedIn(ops, k, n);
      RunLeaves(ops, k, base, i);
      RunHasNoPairs(ops, k);
      RunIsFirstChange(ops, k, i);
      UntouchedFrom(ops, n, base, end, j + |InsertedIn(ops, k, n)|);
      UntouchedAfter(SideChange(i, end, InsertedIn(ops, k, n)), ChangesFrom(ops, n, end), |base|, j);
      RunSpells(ops, k, n);
      assert ops[k..][..n - k] == ops[k..n] && ops[k..][n - k..] == ops[n..];
      NonEqualPositions(ops[k..], n - k, i, j);
    }
  }

  lemma {:induction false} OneLeft(ops: seq<DiffOp>)
    requires ops != [] && ops[0].Equal?
    ensures LeftLines(ops[1..]) == LeftLines(ops)[1..] && LeftLines(ops) != []
  {
  }

  lemma {:induction false} NothingUntouched(base: seq<Line>, i: nat, j: nat)
    requires i <= |base| && LeftLines([]) == base[i..]
    ensures Fit([], i, |base|) && Untouched([], i, |base|, j) == []
  {
  }

  /** A side's changes touch exactly the lines its diff from the base does not pair: what lies between them, line by
      line, is what the diff keeps. */
  lemma {:induction false} ChangesLeaveWhatTheDiffPairs(base: seq<Line>, variant: seq<Line>)
    ensures Fit(ChangesOf(base, variant), 0, |base|)
    ensures Untouched(ChangesOf(base, variant), 0, |base|, 0)
         == EqualPositions(LineDiffOps(base, variant, false), 0, 0)
  {
    hide LineDiffOps, Untouched, EqualPositions, Fit, PairsMatch;
    var ops := LineDiffOps(base, variant, false);
    LineDiffValid(base, variant, false);
    assert base[0..] == base && ops[0..] == ops;
    UntouchedFrom(ops, 0, base, 0, 0);
  }
}
