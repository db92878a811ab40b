/** Which rows of a compare model a presentation shows, said row by row: every changed row, and of an unchanged run
    the rows near a hunk, those the user has expanded, and all of it when too little would be hidden. */
module PresentationLaws {
  import opened Basics
  import opened CompareRows
  import opened Presentation

  /** A maximal run of unchanged rows. */
  ghost predicate IsRun(rows: seq<CompareRow>, start: nat, end: nat) {
    && start < end <= |rows| && (forall i | start <= i < end :: rows[i].kind.Unchanged?)
    && (start > 0 ==> !rows[start - 1].kind.Unchanged?) && (end < |rows| ==> !rows[end].kind.Unchanged?)
  }

  /** What is saved of a run: the first state with its start and length, or nothing expanded. */
  ghost predicate IsSaved(states: seq<RunState>, s: RunState, start: nat, length: nat) {
    || (exists x | 0 <= x < |states| :: FirstState(states, start, length, x) && states[x] == s)
    || (s == RunState(start, length, 0, 0)
        && forall x | 0 <= x < |states| :: !(states[x].start == start && states[x].length == length))
  }

  ghost predicate FirstState(states: seq<RunState>, start: nat, length: nat, x: nat) {
    && x < |states| && states[x].start == start && states[x].length == length
    && forall y | 0 <= y < x :: !(states[y].start == start && states[y].length == length)
  }

  lemma {:induction false} SavedIsFound(states: seq<RunState>, s: RunState, start: nat, length: nat)
    requires IsSaved(states, s, start, length)
    ensures FindState(states, start, length) == s
  {
    if states != [] && !(states[0].start == start && states[0].length == length) {
      var rest := states[1..];
      if x :| 0 <= x < |states| && FirstState(states, start, length, x) && states[x] == s {
        assert FirstState(rest, start, length, x - 1) && rest[x - 1] == s;
      }
      SavedIsFound(rest, s, start, length);
    }
  }

  /** The hunk right above a run, and the one right below; -1 for none. */
  ghost function Above(rows: seq<CompareRow>, start: nat): int { if 0 < start <= |rows| then rows[start - 1].hunk
                                                                else -1 }

  ghost function Below(rows: seq<CompareRow>, end: nat): int { if end < |rows| then rows[end].hunk else -1 }

  /** How many rows stay visible at either end of a run: the context of a hunk there, and what is expanded. */
  ghost function AtTop(rows: seq<CompareRow>, options: Options, start: nat, s: RunState): nat {
    (if Above(rows, start) >= 0 then options.contextLines else 0) + s.above
  }

  ghost function AtBottom(rows: seq<CompareRow>, options: Options, end: nat, s: RunState): nat {
    (if Below(rows, end) >= 0 then options.contextLines else 0) + s.below
  }

  /** The placeholder of the run, which hides so many of its rows, is among the rows shown. */
  ghost predicate Stands(shown: seq<PresentationRow>, rows: seq<CompareRow>, start: nat, end: nat, hidden: nat,
                         visibleAbove: bool)
    requires start <= end
  {
    Collapsed(hidden, start, end - start, visibleAbove, Above(rows, start), Below(rows, end)) in shown
  }

  // ----- The layout of a run -----

  lemma {:induction false} LayoutShows(length: nat, before: bool, after: bool, s: RunState, options: Options, k: nat)
    requires k < length
    ensures var l := LayoutOf(length, before, after, s, options);
            var top := (if before then options.contextLines else 0) + s.above;
            var bottom := (if after then options.contextLines else 0) + s.below;
            && (k < l.prefix || length - l.suffix <= k <==> k < top || length - k <= bottom)
            && length - l.prefix - l.suffix == Monus(length, top + bottom)
            && (l.prefix + l.suffix < length ==> l.prefix == top)
  {
  }

  lemma {:induction false} NoneBefore(rows: seq<CompareRow>, states: seq<RunState>, options: Options, k: nat, m: nat)
    requires m < k <= |rows|
    ensures Model(m) !in RowsFrom(rows, states, options, k)
    decreases |rows| - k
  {
    hide RunRows;
    if k < |rows| {
      if IsChanged(rows[k]) {
        NoneBefore(rows, states, options, k + 1, m);
      } else {
        var end := RunEnd(rows, k);
        NoneBefore(rows, states, options, end, m);
        ShownInRun(rows, options, k, end, LayoutAt(rows, states, options, k, end), m);
      }
    }
  }

  lemma {:induction false} RunEndIs(rows: seq<CompareRow>, start: nat, end: nat)
    requires IsRun(rows, start, end)
    ensures RunEnd(rows, start) == end
  {
  }

  /** From row `k` on, a later run is shown by its own rows and no others. */
  lemma {:induction false} RunAmongRows(rows: seq<CompareRow>, states: seq<RunState>, options: Options, k: nat,
                                        start: nat, end: nat, m: nat)
    requires k <= start && IsRun(rows, start, end) && start <= m < end
    ensures var run := RunRows(rows, options, start, end, LayoutAt(rows, states, options, start, end));
            && (forall row | row in run :: row in RowsFrom(rows, states, options, k))
            && (Model(m) in RowsFrom(rows, states, options, k) ==> Model(m) in run)
    decreases start - k
  {
    hide RunRows, LayoutAt;
    if k == start {
      RunEndIs(rows, start, end);
      NoneBefore(rows, states, options, end, m);
    } else if IsChanged(rows[k]) {
      RunAmongRows(rows, states, options, k + 1, start, end, m);
    } else {
      var first := RunEnd(rows, k);
      assert IsChanged(rows[start - 1]);
      RunAmongRows(rows, states, options, first, start, end, m);
      ShownInRun(rows, options, k, first, LayoutAt(rows, states, options, k, first), m);
    }
  }

  lemma {:induction false} PlaceholderInRun(rows: seq<CompareRow>, options: Options, start: nat, end: nat, l: Layout)
    requires start <= end && l.prefix + l.suffix <= end - start
    requires end - start - l.prefix - l.suffix >= options.collapseThreshold
    ensures Collapsed(end - start - l.prefix - l.suffix, start, end - start, l.prefix > 0, HunkBefore(rows, start),
                      HunkAfter(rows, end)) in RunRows(rows, options, start, end, l)
  {
    hide ModelRows;
    var middle := MiddleRows(rows, options, start, end, l);
    assert middle[0] in middle;
  }

  /** An unchanged row is shown exactly when it is near a hunk, or expanded, or when fewer rows of its run would be
      hidden than are worth a placeholder; else one placeholder says how many are hidden, of which run, between which
      hunks, and whether rows of the run are visible above it. */
  lemma {:induction false} RunIsShown(rows: seq<CompareRow>, states: seq<RunState>, options: Options, start: nat,
                                      end: nat, s: RunState, m: nat)
    requires IsRun(rows, start, end) && IsSaved(states, s, start, end - start) && start <= m < end
    ensures var shown := RowsFrom(rows, states, options, 0);
            var top, bottom := AtTop(rows, options, start, s), AtBottom(rows, options, end, s);
            var hidden := Monus(end - start, top + bottom);
            && (Model(m) in shown <==> m - start < top || end - m <= bottom || hidden < options.collapseThreshold)
            && (hidden >= options.collapseThreshold ==>
                  || Stands(shown, rows, start, end, hidden, top > 0)
                  || (hidden == 0 && Stands(shown, rows, start, end, hidden, top == 0)))
  {
    hide RunRows, RowsFrom, FindState;
    var l := LayoutAt(rows, states, options, start, end);
    SavedIsFound(states, s, start, end - start);
    LayoutShows(end - start, Above(rows, start) >= 0, Below(rows, end) >= 0, s, options, m - start);
    RunAmongRows(rows, states, options, 0, start, end, m);
    ShownInRun(rows, options, start, end, l, m);
    if end - start - l.prefix - l.suffix >= options.collapseThreshold {
      PlaceholderInRun(rows, options, start, end, l);
    }
  }

  /** Every changed row is shown. */
  lemma {:induction false} ChangedRowsAreShown(rows: seq<CompareRow>, states: seq<RunState>, options: Options, k: nat,
                                               m: nat)
    requires k <= m < |rows| && !rows[m].kind.Unchanged?
    ensures Model(m) in RowsFrom(rows, states, options, k)
    decreases m - k
  {
    hide RunRows, LayoutAt;
    if !IsChanged(rows[k]) {
      ChangedRowsAreShown(rows, states, options, RunEnd(rows, k), m);
    } else if k < m {
      ChangedRowsAreShown(rows, states, options, k + 1, m);
    }
  }

  // ----- From placeholders to model rows -----

  /** No row strictly between the two places shows a model row. */
  ghost predicate NoModelBetween(shown: seq<PresentationRow>, a: int, b: nat) {
    forall i | a < i < b && 0 <= i < |shown| :: !shown[i].Model?
  }

  lemma {:induction false} NextIsFirst(shown: seq<PresentationRow>, i: nat, q: nat)
    requires i <= q < |shown| && shown[q].Model? && NoModelBetween(shown, i - 1, q)
    ensures NextModel(shown, i) == q
    decreases q - i
  {
    if i < q {
      assert !shown[i].Model?;
      NextIsFirst(shown, i + 1, q);
    }
  }

  lemma {:induction false} NextIsNone(shown: seq<PresentationRow>, i: nat)
    requires i <= |shown| && NoModelBetween(shown, i - 1, |shown|)
    ensures NextModel(shown, i) == |shown|
    decreases |shown| - i
  {
    if i < |shown| {
      assert !shown[i].Model?;
      NextIsNone(shown, i + 1);
    }
  }

  lemma {:induction false} LastIsNearest(shown: seq<PresentationRow>, i: nat, q: nat)
    requires q < i <= |shown| && shown[q].Model? && NoModelBetween(shown, q, i)
    ensures LastModel(shown, i) == q + 1
  {
    if q < i - 1 {
      assert !shown[i - 1].Model?;
      LastIsNearest(shown, i - 1, q);
    }
  }

  /** A row that shows no model row leads to the next one shown after it, and where none follows to the last one shown
      before. */
  lemma {:induction false} PlaceholderLeadsOn(shown: seq<PresentationRow>, p: nat, q: nat)
    requires p < |shown| && !shown[p].Model? && q < |shown| && shown[q].Model?
    ensures p < q && NoModelBetween(shown, p, q) ==> ToModelRow(shown, p) == shown[q].index
    ensures q < p && NoModelBetween(shown, q, |shown|) ==> ToModelRow(shown, p) == shown[q].index
  {
    hide NoModelBetween;
    if p < q && NoModelBetween(shown, p, q) {
      NextIsFirst(shown, p + 1, q);
    } else if q < p && NoModelBetween(shown, q, |shown|) {
      BetweenParts(shown, q, p);
      NextIsNone(shown, p + 1);
      LastIsNearest(shown, p, q);
    }
  }

  lemma {:induction false} BetweenParts(shown: seq<PresentationRow>, q: nat, p: nat)
    requires q < p < |shown| && NoModelBetween(shown, q, |shown|)
    ensures NoModelBetween(shown, q, p) && NoModelBetween(shown, p, |shown|)
  {
  }

  // ----- What is kept for the next build -----

  lemma {:induction false} StateAmongStates(rows: seq<CompareRow>, states: seq<RunState>, options: Options, k: nat,
                                            start: nat, end: nat)
    requires k <= start && IsRun(rows, start, end)
    ensures var s := FindState(states, start, end - start);
            s in StatesFrom(rows, states, options, k) <==> KeepsState(s, options)
    decreases start - k
  {
    hide FindState, KeepsState;
    var s := FindState(states, start, end - start);
    if k == start {
      RunEndIs(rows, start, end);
      StatesStartLater(rows, states, options, end);
    } else if IsChanged(rows[k]) {
      StateAmongStates(rows, states, options, k + 1, start, end);
    } else {
      assert IsChanged(rows[start - 1]);
      StateAmongStates(rows, states, options, RunEnd(rows, k), start, end);
      assert s !in KeptState(FindState(states, k, RunEnd(rows, k) - k), options);
    }
  }

  /** A build carries on what is saved of a run exactly when the run is long enough to be collapsed and something of it
      is expanded. */
  lemma {:induction false} KeptWhenExpanded(rows: seq<CompareRow>, states: seq<RunState>, options: Options, start: nat,
                                            end: nat, s: RunState)
    requires IsRun(rows, start, end) && IsSaved(states, s, start, end - start)
    ensures s in StatesFrom(rows, states, options, 0)
       <==> end - start >= options.collapseThreshold && (s.above > 0 || s.below > 0)
  {
    hide StatesFrom;
    SavedIsFound(states, s, start, end - start);
    StateAmongStates(rows, states, options, 0, start, end);
  }

  /** Nothing else is carried on. */
  lemma {:induction false} KeptBelongsToRun(rows: seq<CompareRow>, states: seq<RunState>, options: Options, k: nat,
                                            s: RunState)
    requires k <= |rows| && s in StatesFrom(rows, states, options, k)
    requires 0 < k < |rows| ==> IsChanged(rows[k - 1]) || IsChanged(rows[k])
    ensures IsRun(rows, s.start, s.start + s.length)
    decreases |rows| - k
  {
    if k < |rows| {
      if IsChanged(rows[k]) {
        KeptBelongsToRun(rows, states, options, k + 1, s);
      } else {
        var end := RunEnd(rows, k);
        var state := FindState(states, k, end - k);
        if s in KeptState(state, options) {
          assert s == state && k < end;
        } else {
          KeptBelongsToRun(rows, states, options, end, s);
        }
      }
    }
  }
}
