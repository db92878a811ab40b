/** The collapsed presentation of a compare model: changed rows, the context around them, and one
    placeholder for each long run of unchanged rows in between. */
module Presentation {
  import opened Basics
  import opened CompareRows

  datatype PresentationRow =
    | Metadata(summary: string)
    | Model(index: nat)
    | Collapsed(count: nat, runStart: nat, runLength: nat, contextAbove: bool, previousHunk: int, nextHunk: int)

  /** How far the user has expanded a run. */
  datatype RunState = RunState(start: nat, length: nat, above: nat, below: nat)

  datatype Options = Options(contextLines: nat, collapseThreshold: nat)

  predicate IsChanged(row: CompareRow) { !row.kind.Unchanged? }

  // ----- The rows of a presentation -----

  /** Where the unchanged run at `k` ends. */
  function RunEnd(rows: seq<CompareRow>, k: nat): (end: nat)
    requires k <= |rows|
    ensures k <= end <= |rows| && (forall i | k <= i < end :: !IsChanged(rows[i]))
    ensures end < |rows| ==> IsChanged(rows[end])
    decreases |rows| - k
  {
    if k < |rows| && !IsChanged(rows[k]) then RunEnd(rows, k + 1) else k
  }

  /** The saved state of a run: the first with its start and length; nothing expanded if there is none. */
  function FindState(states: seq<RunState>, start: nat, length: nat): (s: RunState)
    ensures s.start == start && s.length == length
  {
    if states == [] then RunState(start, length, 0, 0)
    else if states[0].start == start && states[0].length == length then states[0]
    else FindState(states[1..], start, length)
  }

  /** How many rows at either end of a run stay visible. */
  datatype Layout = Layout(prefix: nat, suffix: nat)

  function LayoutOf(length: nat, before: bool, after: bool, state: RunState, options: Options): (l: Layout)
    ensures l.prefix + l.suffix <= length
  {
    var defaultPrefix := if before then Min(options.contextLines, length) else 0;
    var defaultSuffix := if after then Min(options.contextLines, length) else 0;
    var prefix := Min(Monus(length, defaultSuffix), defaultPrefix + state.above);
    Layout(prefix, Min(length - prefix, defaultSuffix + state.below))
  }

  function HunkBefore(rows: seq<CompareRow>, start: nat): int {
    if 0 < start <= |rows| then rows[start - 1].hunk else -1
  }

  function HunkAfter(rows: seq<CompareRow>, end: nat): int {
    if end < |rows| then rows[end].hunk else -1
  }

  function LayoutAt(rows: seq<CompareRow>, states: seq<RunState>, options: Options, start: nat, end: nat): (l: Layout)
    requires start <= end
    ensures l.prefix + l.suffix <= end - start
  {
    LayoutOf(end - start, HunkBefore(rows, start) >= 0, HunkAfter(rows, end) >= 0,
             FindState(states, start, end - start), options)
  }

  function ModelRows(from: nat, to: nat): (r: seq<PresentationRow>)
    requires from <= to
    ensures |r| == to - from && forall i | 0 <= i < |r| :: r[i] == Model(from + i)
  {
    if from == to then [] else ModelRows(from, to - 1) + [Model(to - 1)]
  }

  /** What is between the visible ends of a run. */
  function MiddleRows(rows: seq<CompareRow>, options: Options, start: nat, end: nat, l: Layout): seq<PresentationRow>
    requires start <= end && l.prefix + l.suffix <= end - start
  {
    var hidden := end - start - l.prefix - l.suffix;
    if hidden >= options.collapseThreshold then
      [Collapsed(hidden, start, end - start, l.prefix > 0, HunkBefore(rows, start), HunkAfter(rows, end))]
    else ModelRows(start + l.prefix, end - l.suffix)
  }

  function RunRows(rows: seq<CompareRow>, options: Options, start: nat, end: nat, l: Layout): seq<PresentationRow>
    requires start <= end && l.prefix + l.suffix <= end - start
  {
    ModelRows(start, start + l.prefix) + MiddleRows(rows, options, start, end, l) + ModelRows(end - l.suffix, end)
  }

  /** The presentation of the model rows from `k` on. */
  function RowsFrom(rows: seq<CompareRow>, states: seq<RunState>, options: Options, k: nat): seq<PresentationRow>
    requires k <= |rows|
    decreases |rows| - k
  {
    if k == |rows| then []
    else if IsChanged(rows[k]) then [Model(k)] + RowsFrom(rows, states, options, k + 1)
    else
      var end := RunEnd(rows, k);
      RunRows(rows, options, k, end, LayoutAt(rows, states, options, k, end)) + RowsFrom(rows, states, options, end)
  }

  predicate KeepsState(state: RunState, options: Options) {
    state.length >= options.collapseThreshold && (state.above > 0 || state.below > 0)
  }

  function KeptState(state: RunState, options: Options): seq<RunState> {
    if KeepsState(state, options) then [state] else []
  }

  /** The run states carried to the next build. */
  function StatesFrom(rows: seq<CompareRow>, states: seq<RunState>, options: Options, k: nat): seq<RunState>
    requires k <= |rows|
    decreases |rows| - k
  {
    if k == |rows| then []
    else if IsChanged(rows[k]) then StatesFrom(rows, states, options, k + 1)
    else
      var end := RunEnd(rows, k);
      var state := FindState(states, k, end - k);
      KeptState(state, options) + StatesFrom(rows, states, options, end)
  }

  function Head(metadata: string): seq<PresentationRow> {
    if metadata == "" then [] else [Metadata(metadata)]
  }

  function Presented(metadata: string, binary: bool, rows: seq<CompareRow>, states: seq<RunState>,
                     options: Options): seq<PresentationRow> {
    Head(metadata) + if binary then [] else RowsFrom(rows, states, options, 0)
  }

  // ----- Every model row is shown once or hidden once -----

  /** The presentation rows cover the model rows `[k, n)` in order: each is shown by its own row or is one
      of the unchanged rows its placeholder counts, and no two placeholders belong to one run. */
  ghost predicate Tiles(shown: seq<PresentationRow>, rows: seq<CompareRow>, k: nat, lo: nat)
    decreases |shown|
  {
    if shown == [] then k == |rows|
    else
      match shown[0]
      case Metadata(_) => false
      case Model(index) => index == k < |rows| && Tiles(shown[1..], rows, k + 1, lo)
      case Collapsed(count, runStart, runLength, _, _, _) =>
        && lo <= runStart <= k && k + count <= runStart + runLength <= |rows|
        && (forall i | runStart <= i < runStart + runLength :: !IsChanged(rows[i]))
        && Tiles(shown[1..], rows, k + count, runStart + runLength)
  }

  lemma {:induction false} TilesWeaken(shown: seq<PresentationRow>, rows: seq<CompareRow>, k: nat, lo: nat, less: nat)
    requires Tiles(shown, rows, k, lo) && less <= lo
    ensures Tiles(shown, rows, k, less)
    decreases |shown|
  {
    if shown != [] && shown[0].Model? {
      TilesWeaken(shown[1..], rows, k + 1, lo, less);
    }
  }

  lemma {:induction false} TilesAfterModelRows(rows: seq<CompareRow>, from: nat, end: nat,
                                               rest: seq<PresentationRow>, lo: nat)
    requires from <= end <= |rows| && Tiles(rest, rows, end, lo)
    ensures Tiles(ModelRows(from, end) + rest, rows, from, lo)
    decreases end - from
  {
    if from == end {
      assert ModelRows(from, end) + rest == rest;
    } else {
      var tail := [Model(end - 1)] + rest;
      assert tail[1..] == rest;
      TilesAfterModelRows(rows, from, end - 1, tail, lo);
      assert ModelRows(from, end) + rest == ModelRows(from, end - 1) + tail;
    }
  }

  lemma {:induction false} TilesMiddle(rows: seq<CompareRow>, options: Options, start: nat, end: nat, l: Layout,
                                       rest: seq<PresentationRow>)
    requires start <= end <= |rows| && l.prefix + l.suffix <= end - start
    requires forall i | start <= i < end :: !IsChanged(rows[i])
    requires Tiles(rest, rows, end - l.suffix, end)
    ensures Tiles(MiddleRows(rows, options, start, end, l) + rest, rows, start + l.prefix, start)
  {
    var m := MiddleRows(rows, options, start, end, l);
    if end - start - l.prefix - l.suffix >= options.collapseThreshold {
      assert (m + rest)[1..] == rest;
    } else {
      TilesAfterModelRows(rows, start + l.prefix, end - l.suffix, rest, end);
      TilesWeaken(m + rest, rows, start + l.prefix, end, start);
    }
  }

  lemma {:induction false} TilesRun(rows: seq<CompareRow>, options: Options, start: nat, end: nat, l: Layout,
                                    rest: seq<PresentationRow>)
    requires start <= end <= |rows| && l.prefix + l.suffix <= end - start
    requires forall i | start <= i < end :: !IsChanged(rows[i])
    requires Tiles(rest, rows, end, end)
    ensures Tiles(RunRows(rows, options, start, end, l) + rest, rows, start, start)
  {
    hide Tiles, MiddleRows, ModelRows;
    var a, m, z := ModelRows(start, start + l.prefix), MiddleRows(rows, options, start, end, l),
        ModelRows(end - l.suffix, end);
    TilesAfterModelRows(rows, end - l.suffix, end, rest, end);
    TilesMiddle(rows, options, start, end, l, z + rest);
    TilesAfterModelRows(rows, start, start + l.prefix, m + (z + rest), start);
    Associate(a + m, z, rest);
    Associate(a, m, z + rest);
  }

  /** In a non-binary presentation every model row is shown once or hidden in exactly one placeholder;
      hidden rows are unchanged and counted exactly. */
  lemma {:induction false} PresentationTiles(rows: seq<CompareRow>, states: seq<RunState>, options: Options, k: nat)
    requires k <= |rows|
    ensures Tiles(RowsFrom(rows, states, options, k), rows, k, k)
    decreases |rows| - k
  {
    if k < |rows| {
      if IsChanged(rows[k]) {
        PresentationTiles(rows, states, options, k + 1);
        var rest := RowsFrom(rows, states, options, k + 1);
        assert ([Model(k)] + rest)[1..] == rest;
        TilesWeaken(rest, rows, k + 1, k + 1, k);
      } else {
        var end := RunEnd(rows, k);
        PresentationTiles(rows, states, options, end);
        TilesRun(rows, options, k, end, LayoutAt(rows, states, options, k, end), RowsFrom(rows, states, options, end));
      }
    }
  }

  /** The place of the row that shows or hides model row `m`. */
  function CoveringRow(shown: seq<PresentationRow>, k: nat, m: nat): nat
    decreases |shown|
  {
    if shown == [] then 0
    else if shown[0].Collapsed? then
      if m < k + shown[0].count then 0 else 1 + CoveringRow(shown[1..], k + shown[0].count, m)
    else if m <= k then 0
    else 1 + CoveringRow(shown[1..], k + 1, m)
  }

  // ----- From model rows to presentation rows -----

  /** The scan of the row map from row `i`: an exact model row wins at once, otherwise the last row anchored at
      or before `m`. */
  function RowFrom(shown: seq<PresentationRow>, m: nat, i: nat, best: nat): nat
    requires i <= |shown|
    decreases |shown| - i
  {
    if i == |shown| then best
    else
      match shown[i]
      case Metadata(_) => RowFrom(shown, m, i + 1, best)
      case Model(index) => if index == m then i else RowFrom(shown, m, i + 1, if index <= m then i else best)
      case Collapsed(_, runStart, _, _, _, _) => RowFrom(shown, m, i + 1, if runStart <= m then i else best)
  }

  function RowForModelRow(shown: seq<PresentationRow>, m: nat): nat {
    RowFrom(shown, m, 0, 0)
  }

  /** Past the row that covers `m`, every anchor is after `m`. */
  lemma {:induction false} AnchorsAfter(all: seq<PresentationRow>, rows: seq<CompareRow>, i: nat, k: nat, lo: nat,
                                        m: nat, best: nat)
    requires i <= |all| && Tiles(all[i..], rows, k, lo) && m < k && m < lo
    ensures RowFrom(all, m, i, best) == best
    decreases |all| - i
  {
    if i < |all| {
      assert all[i..][0] == all[i] && all[i..][1..] == all[i + 1..];
      match all[i]
      case Model(_) => AnchorsAfter(all, rows, i + 1, k + 1, lo, m, best);
      case Collapsed(count, runStart, runLength, _, _, _) =>
        AnchorsAfter(all, rows, i + 1, k + count, runStart + runLength, m, best);
    }
  }

  lemma {:induction false} RowFromCovers(all: seq<PresentationRow>, rows: seq<CompareRow>, i: nat, k: nat, lo: nat,
                                         m: nat, best: nat)
    requires i <= |all| && Tiles(all[i..], rows, k, lo) && k <= m < |rows|
    ensures i + CoveringRow(all[i..], k, m) < |all|
    ensures RowFrom(all, m, i, best) == i + CoveringRow(all[i..], k, m)
    ensures var p := all[RowFrom(all, m, i, best)];
            match p
            case Metadata(_) => false
            case Model(index) => index == m
            case Collapsed(_, runStart, runLength, _, _, _) =>
                && runStart <= m < runStart + runLength
                && !IsChanged(rows[m])
    decreases |all| - i
  {
    hide IsChanged;
    assert all[i..][0] == all[i] && all[i..][1..] == all[i + 1..];
    match all[i]
    case Model(_) =>
      if m > k {
        RowFromCovers(all, rows, i + 1, k + 1, lo, m, i);
      }
    case Collapsed(count, runStart, runLength, _, _, _) =>
      if m < k + count {
        CoveredByPlaceholder(all, rows, i, k, m);
      } else {
        RowFromCovers(all, rows, i + 1, k + count, runStart + runLength, m, i);
      }
  }

  /** A placeholder that hides `m` is where the scan ends up. */
  lemma {:induction false} CoveredByPlaceholder(all: seq<PresentationRow>, rows: seq<CompareRow>, i: nat, k: nat,
                                                m: nat)
    requires i < |all| && all[i].Collapsed? && k <= m < k + all[i].count
    requires Tiles(all[i + 1..], rows, k + all[i].count, all[i].runStart + all[i].runLength)
    requires all[i].runStart <= k && k + all[i].count <= all[i].runStart + all[i].runLength
    ensures RowFrom(all, m, i + 1, i) == i
  {
    AnchorsAfter(all, rows, i + 1, k + all[i].count, all[i].runStart + all[i].runLength, m, i);
  }

  /** The row map sends a visible model row to its own row and a hidden one to its placeholder. */
  lemma {:induction false} RowMapFinds(metadata: string, rows: seq<CompareRow>, states: seq<RunState>,
                                       options: Options, m: nat)
    requires m < |rows|
    ensures var shown := Presented(metadata, false, rows, states, options);
            var p := RowForModelRow(shown, m);
            && p == |Head(metadata)| + CoveringRow(RowsFrom(rows, states, options, 0), 0, m) < |shown|
            && match shown[p]
               case Metadata(_) => false
               case Model(index) => index == m
               case Collapsed(_, runStart, runLength, _, _, _) =>
                   && runStart <= m < runStart + runLength
                   && !IsChanged(rows[m])
  {
    var shown := Presented(metadata, false, rows, states, options);
    var h := |Head(metadata)|;
    PresentationTiles(rows, states, options, 0);
    assert shown[h..] == RowsFrom(rows, states, options, 0);
    RowFromCovers(shown, rows, h, 0, 0, m, 0);
    assert RowForModelRow(shown, m) == RowFrom(shown, m, h, 0);
  }

  /** A model row has at most one row of its own, and the map finds it. */
  lemma {:induction false} VisibleRowsMapToThemselves(metadata: string, rows: seq<CompareRow>, states: seq<RunState>,
                                                      options: Options, p: nat)
    requires var shown := Presented(metadata, false, rows, states, options); p < |shown| && shown[p].Model?
    ensures var shown := Presented(metadata, false, rows, states, options);
            shown[p].index < |rows| && RowForModelRow(shown, shown[p].index) == p
                && ToModelRow(shown, p) == shown[p].index
  {
    var shown := Presented(metadata, false, rows, states, options);
    var h := |Head(metadata)|;
    PresentationTiles(rows, states, options, 0);
    assert shown[h..] == RowsFrom(rows, states, options, 0);
    ModelRowAt(shown, rows, h, 0, 0, p);
    RowFromExact(shown, rows, h, 0, 0, p, 0);
    assert RowForModelRow(shown, shown[p].index) == RowFrom(shown, shown[p].index, h, 0);
  }

  lemma {:induction false} ModelRowAt(all: seq<PresentationRow>, rows: seq<CompareRow>, i: nat, k: nat, lo: nat, p: nat)
    requires i <= p < |all| && Tiles(all[i..], rows, k, lo) && all[p].Model?
    ensures k <= all[p].index < |rows|
    ensures i < p && all[i].Model? ==> all[i].index < all[p].index
    decreases p - i
  {
    assert all[i..][0] == all[i] && all[i..][1..] == all[i + 1..];
    if i < p {
      match all[i]
      case Model(_) => ModelRowAt(all, rows, i + 1, k + 1, lo, p);
      case Collapsed(count, runStart, runLength, _, _, _) => ModelRowAt(all, rows, i + 1, k + count,
              runStart + runLength, p);
    }
  }

  lemma {:induction false} RowFromExact(all: seq<PresentationRow>, rows: seq<CompareRow>, i: nat, k: nat, lo: nat,
                                        p: nat, best: nat)
    requires i <= p < |all| && Tiles(all[i..], rows, k, lo) && all[p].Model?
    ensures RowFrom(all, all[p].index, i, best) == p
    decreases p - i
  {
    assert all[i..][0] == all[i] && all[i..][1..] == all[i + 1..];
    if i < p {
      ModelRowAt(all, rows, i, k, lo, p);
      match all[i]
      case Model(index) => RowFromExact(all, rows, i + 1, k + 1, lo, p, i);
      case Collapsed(count, runStart, runLength, _, _, _) =>
        ModelRowAt(all, rows, i + 1, k + count, runStart + runLength, p);
        RowFromExact(all, rows, i + 1, k + count, runStart + runLength, p, i);
    }
  }

  // ----- From presentation rows to model rows -----

  /** The first model row from `i` on; the length if there is none. */
  function NextModel(shown: seq<PresentationRow>, i: nat): (r: nat)
    requires i <= |shown|
    ensures i <= r <= |shown| && (r < |shown| ==> shown[r].Model?)
    decreases |shown| - i
  {
    if i == |shown| || shown[i].Model? then i else NextModel(shown, i + 1)
  }

  /** The last model row before `i`, as one more than its place; 0 if there is none. */
  function LastModel(shown: seq<PresentationRow>, i: nat): (r: nat)
    requires i <= |shown|
    ensures r <= i && (r > 0 ==> shown[r - 1].Model?)
  {
    if i == 0 || shown[i - 1].Model? then i else LastModel(shown, i - 1)
  }

  function ToModelRow(shown: seq<PresentationRow>, p: nat): nat {
    if p >= |shown| then 0
    else if shown[p].Model? then shown[p].index
    else if NextModel(shown, p + 1) < |shown| then shown[NextModel(shown, p + 1)].index
    else if LastModel(shown, p) > 0 then shown[LastModel(shown, p) - 1].index
    else 0
  }

  // ----- Expanding never hides -----

  /** Each run is expanded at least as far. */
  ghost predicate ExpandsMore(states: seq<RunState>, more: seq<RunState>) {
    forall start, length ::
      FindState(states, start, length).above <= FindState(more, start, length).above
      && FindState(states, start, length).below <= FindState(more, start, length).below
  }

  /** Raising a run's expand counts shows at least the same rows of it. */
  lemma {:induction false} LayoutGrows(length: nat, before: bool, after: bool, s: RunState, t: RunState,
                                       options: Options)
    requires s.above <= t.above && s.below <= t.below
    ensures var l, m := LayoutOf(length, before, after, s, options), LayoutOf(length, before, after, t, options);
            l.prefix <= m.prefix && (l.suffix <= m.suffix || m.prefix + m.suffix == length)
            && l.prefix + l.suffix <= m.prefix + m.suffix
  {
  }

  lemma {:induction false} InModelRows(from: nat, to: nat, m: nat)
    requires from <= to
    ensures Model(m) in ModelRows(from, to) <==> from <= m < to
  {
    if from <= m < to {
      assert ModelRows(from, to)[m - from] == Model(m);
    }
  }

  lemma {:induction false} ShownInRun(rows: seq<CompareRow>, options: Options, start: nat, end: nat, l: Layout, m: nat)
    requires start <= end && l.prefix + l.suffix <= end - start
    ensures Model(m) in RunRows(rows, options, start, end, l)
       <==> start <= m < end && (m < start + l.prefix || end - l.suffix <= m
                                 || end - start - l.prefix - l.suffix < options.collapseThreshold)
  {
    hide ModelRows;
    InModelRows(start, start + l.prefix, m);
    InModelRows(start + l.prefix, end - l.suffix, m);
    InModelRows(end - l.suffix, end, m);
  }

  /** Raising expand counts never hides a model row that was visible. */
  lemma {:induction false} ExpandingNeverHides(rows: seq<CompareRow>, states: seq<RunState>, more: seq<RunState>,
                                               options: Options, k: nat, m: nat)
    requires k <= |rows| && ExpandsMore(states, more)
    ensures Model(m) in RowsFrom(rows, states, options, k) ==> Model(m) in RowsFrom(rows, more, options, k)
    decreases |rows| - k
  {
    if k < |rows| {
      if IsChanged(rows[k]) {
        ExpandingNeverHides(rows, states, more, options, k + 1, m);
      } else {
        var end := RunEnd(rows, k);
        ExpandingNeverHides(rows, states, more, options, end, m);
        ShownInRun(rows, options, k, end, LayoutAt(rows, states, options, k, end), m);
        ShownInRun(rows, options, k, end, LayoutAt(rows, more, options, k, end), m);
        LayoutGrows(end - k, HunkBefore(rows, k) >= 0, HunkAfter(rows, end) >= 0,
                    FindState(states, k, end - k), FindState(more, k, end - k), options);
      }
    }
  }

  // ----- Rebuilding -----

  lemma {:induction false} StatesStartLater(rows: seq<CompareRow>, states: seq<RunState>, options: Options, k: nat)
    requires k <= |rows|
    ensures forall i | 0 <= i < |StatesFrom(rows, states, options, k)| ::
            k <= StatesFrom(rows, states, options, k)[i].start
    decreases |rows| - k
  {
    if k < |rows| {
      if IsChanged(rows[k]) {
        StatesStartLater(rows, states, options, k + 1);
      } else {
        StatesStartLater(rows, states, options, RunEnd(rows, k));
      }
    }
  }

  lemma {:induction false} FindPast(front: seq<RunState>, back: seq<RunState>, start: nat, length: nat)
    requires forall i | 0 <= i < |front| :: front[i].start < start
    ensures FindState(front + back, start, length) == FindState(back, start, length)
  {
    if front == [] {
      assert front + back == back;
    } else {
      FindPast(front[1..], back, start, length);
      assert (front + back)[1..] == front[1..] + back;
    }
  }

  lemma {:induction false} FindNone(states: seq<RunState>, start: nat, length: nat)
    requires forall i | 0 <= i < |states| :: start < states[i].start
    ensures FindState(states, start, length) == RunState(start, length, 0, 0)
  {
    if states != [] {
      FindNone(states[1..], start, length);
    }
  }

  /** A run too short to collapse is shown whole, expanded or not. */
  lemma {:induction false} ShortRunsShowAll(rows: seq<CompareRow>, options: Options, start: nat, end: nat, l: Layout,
                                            m: Layout)
    requires start < end && end - start < options.collapseThreshold
    requires l.prefix + l.suffix <= end - start && m.prefix + m.suffix <= end - start
    ensures RunRows(rows, options, start, end, l) == RunRows(rows, options, start, end, m)
  {
    WholeRun(rows, options, start, end, l);
    WholeRun(rows, options, start, end, m);
  }

  lemma {:induction false} WholeRun(rows: seq<CompareRow>, options: Options, start: nat, end: nat, l: Layout)
    requires start <= end && l.prefix + l.suffix <= end - start
    requires end - start - l.prefix - l.suffix < options.collapseThreshold
    ensures RunRows(rows, options, start, end, l) == ModelRows(start, end)
  {
  }

  /** The state of a run found again in the kept list, unless the run is too short to collapse. */
  lemma {:induction false} FindKept(front: seq<RunState>, state: RunState, later: seq<RunState>, options: Options)
    requires forall i | 0 <= i < |front| :: front[i].start < state.start
    requires forall i | 0 <= i < |later| :: state.start < later[i].start
    ensures FindState(front + (KeptState(state, options) + later), state.start, state.length) == state
            || state.length < options.collapseThreshold
  {
    var kept := KeptState(state, options);
    FindPast(front, kept + later, state.start, state.length);
    if KeepsState(state, options) {
      assert (kept + later)[0] == state;
    } else {
      assert kept + later == later;
      FindNone(later, state.start, state.length);
    }
  }

  lemma {:induction false} SameRun(rows: seq<CompareRow>, states: seq<RunState>, others: seq<RunState>,
                                   options: Options, start: nat, end: nat)
    requires start < end
    requires FindState(states, start, end - start) == FindState(others, start, end - start)
             || end - start < options.collapseThreshold
    ensures RunRows(rows, options, start, end, LayoutAt(rows, states, options, start, end))
         == RunRows(rows, options, start, end, LayoutAt(rows, others, options, start, end))
  {
    if end - start < options.collapseThreshold {
      ShortRunsShowAll(rows, options, start, end, LayoutAt(rows, states, options, start, end),
                       LayoutAt(rows, others, options, start, end));
    }
  }

  lemma {:induction false} RebuildFrom(rows: seq<CompareRow>, states: seq<RunState>, options: Options,
                                       front: seq<RunState>, k: nat)
    requires k <= |rows| && forall i | 0 <= i < |front| :: front[i].start < k
    ensures RowsFrom(rows, front + StatesFrom(rows, states, options, k), options, k)
            == RowsFrom(rows, states, options, k)
    decreases |rows| - k
  {
    hide RunRows, LayoutAt;
    if k < |rows| {
      if IsChanged(rows[k]) {
        RebuildFrom(rows, states, options, front, k + 1);
      } else {
        var end := RunEnd(rows, k);
        var state := FindState(states, k, end - k);
        var kept, later := KeptState(state, options), StatesFrom(rows, states, options, end);
        RebuildFrom(rows, states, options, front + kept, end);
        Associate(front, kept, later);
        StatesStartLater(rows, states, options, end);
        FindKept(front, state, later, options);
        SameRun(rows, states, front + (kept + later), options, k, end);
      }
    }
  }

  /** Rebuilding an unchanged model with the states the last build kept gives the same presentation. */
  lemma {:induction false} RebuildingKeepsRows(rows: seq<CompareRow>, states: seq<RunState>, options: Options)
    ensures RowsFrom(rows, StatesFrom(rows, states, options, 0), options, 0) == RowsFrom(rows, states, options, 0)
  {
    RebuildFrom(rows, states, options, [], 0);
    assert [] + StatesFrom(rows, states, options, 0) == StatesFrom(rows, states, options, 0);
  }

  // ----- The methods -----

  class ComparePresentationModel {
    /** Rows of this build up to the cursor, and past it what an earlier build left. */
    var rows: seq<PresentationRow>
    var collapsedRuns: seq<RunState>
    var previousCollapsedRuns: seq<RunState>

    constructor ()
      ensures rows == [] && collapsedRuns == [] && previousCollapsedRuns == []
    {
      rows, collapsedRuns, previousCollapsedRuns := [], [], [];
    }

    /** Claims the next row of the slab and fills it. */
    method ClaimRow(cursor: nat, row: PresentationRow) returns (next: nat)
      requires cursor <= |rows|
      modifies this`rows
      ensures next == cursor + 1 <= |rows| && rows[..next] == old(rows[..cursor]) + [row]
    {
      if cursor == |rows| {
        rows := rows + [row];
      } else {
        rows := rows[cursor := row];
      }
      next := cursor + 1;
    }

    method ClaimModelRows(cursor: nat, from: nat, to: nat) returns (next: nat)
      requires cursor <= |rows| && from <= to
      modifies this`rows
      ensures next <= |rows| && rows[..next] == old(rows[..cursor]) + ModelRows(from, to)
    {
      next := cursor;
      var i := from;
      while i < to
        invariant from <= i <= to && next <= |rows|
        invariant rows[..next] == old(rows[..cursor]) + ModelRows(from, i)
      {
        next := ClaimRow(next, Model(i));
        i := i + 1;
      }
    }

    method ClaimRun(cursor: nat, model: seq<CompareRow>, options: Options, start: nat, end: nat, l: Layout)
        returns (next: nat)
      requires cursor <= |rows| && start <= end && l.prefix + l.suffix <= end - start
      modifies this`rows
      ensures next <= |rows| && rows[..next] == old(rows[..cursor]) + RunRows(model, options, start, end, l)
    {
      hide HunkBefore, HunkAfter, ModelRows;
      var hidden := end - start - l.prefix - l.suffix;
      next := ClaimModelRows(cursor, start, start + l.prefix);
      if hidden >= options.collapseThreshold {
        next := ClaimRow(next, Collapsed(hidden, start, end - start, l.prefix > 0, HunkBefore(model, start),
                                         HunkAfter(model, end)));
      } else {
        next := ClaimModelRows(next, start + l.prefix, end - l.suffix);
      }
      next := ClaimModelRows(next, end - l.suffix, end);
    }

    method FindRunEnd(model: seq<CompareRow>, start: nat) returns (end: nat)
      requires start <= |model|
      ensures end == RunEnd(model, start)
    {
      end := start;
      while end < |model| && !IsChanged(model[end])
        invariant start <= end <= |model| && RunEnd(model, start) == RunEnd(model, end)
      {
        end := end + 1;
      }
    }

    /** The changed row or the unchanged run at `rowIndex`. */
    method ClaimNext(cursor: nat, model: seq<CompareRow>, options: Options, rowIndex: nat) returns (next: nat, end: nat)
      requires cursor <= |rows| && rowIndex < |model|
      modifies this`rows, this`collapsedRuns
      ensures next <= |rows| && rowIndex < end <= |model|
      ensures rows[..next] + RowsFrom(model, previousCollapsedRuns, options, end)
           == old(rows[..cursor]) + RowsFrom(model, previousCollapsedRuns, options, rowIndex)
      ensures collapsedRuns + StatesFrom(model, previousCollapsedRuns, options, end)
           == old(collapsedRuns) + StatesFrom(model, previousCollapsedRuns, options, rowIndex)
    {
      ghost var done := rows[..cursor];
      if IsChanged(model[rowIndex]) {
        next := ClaimRow(cursor, Model(rowIndex));
        end := rowIndex + 1;
        Associate(done, [Model(rowIndex)], RowsFrom(model, previousCollapsedRuns, options, end));
      } else {
        end := FindRunEnd(model, rowIndex);
        next := ClaimRunAt(cursor, model, options, rowIndex, end);
      }
    }

    method ClaimRunAt(cursor: nat, model: seq<CompareRow>, options: Options, start: nat, end: nat) returns (next: nat)
      requires cursor <= |rows| && start < |model| && !IsChanged(model[start]) && end == RunEnd(model, start)
      modifies this`rows, this`collapsedRuns
      ensures next <= |rows|
      ensures rows[..next] + RowsFrom(model, previousCollapsedRuns, options, end)
           == old(rows[..cursor]) + RowsFrom(model, previousCollapsedRuns, options, start)
      ensures collapsedRuns + StatesFrom(model, previousCollapsedRuns, options, end)
           == old(collapsedRuns) + StatesFrom(model, previousCollapsedRuns, options, start)
    {
      hide RunRows;
      ghost var done, runs := rows[..cursor], collapsedRuns;
      var state := FindState(previousCollapsedRuns, start, end - start);
      var l := LayoutOf(end - start, HunkBefore(model, start) >= 0, HunkAfter(model, end) >= 0, state, options);
      next := ClaimRun(cursor, model, options, start, end, l);
      if KeepsState(state, options) {
        collapsedRuns := collapsedRuns + [state];
      }
      Associate(done, RunRows(model, options, start, end, l), RowsFrom(model, previousCollapsedRuns, options, end));
      Associate(runs, KeptState(state, options), StatesFrom(model, previousCollapsedRuns, options, end));
    }

    method ClaimModel(cursor: nat, model: seq<CompareRow>, options: Options) returns (next: nat)
      requires cursor <= |rows| && collapsedRuns == []
      modifies this`rows, this`collapsedRuns
      ensures next <= |rows| && rows[..next] == old(rows[..cursor]) + RowsFrom(model, previousCollapsedRuns, options, 0)
      ensures collapsedRuns == StatesFrom(model, previousCollapsedRuns, options, 0)
    {
      next := cursor;
      var rowIndex := 0;
      while rowIndex < |model|
        invariant rowIndex <= |model| && next <= |rows|
        invariant rows[..next] + RowsFrom(model, previousCollapsedRuns, options, rowIndex)
               == old(rows[..cursor]) + RowsFrom(model, previousCollapsedRuns, options, 0)
        invariant collapsedRuns + StatesFrom(model, previousCollapsedRuns, options, rowIndex)
               == StatesFrom(model, previousCollapsedRuns, options, 0)
      {
        next, rowIndex := ClaimNext(next, model, options, rowIndex);
      }
      assert rows[..next] + [] == rows[..next] && collapsedRuns + [] == collapsedRuns;
    }

    /** Rebuilds the presentation in place; the states of the last build are read while the new ones
        are written. */
    method BuildInto(metadata: string, binary: bool, model: seq<CompareRow>, options: Options)
      modifies this
      ensures rows == Presented(metadata, binary, model, old(collapsedRuns), options)
      ensures collapsedRuns == if binary then [] else StatesFrom(model, old(collapsedRuns), options, 0)
    {
      previousCollapsedRuns, collapsedRuns := collapsedRuns, previousCollapsedRuns;
      collapsedRuns := [];
      var cursor := 0;
      cursor := ClaimRow(cursor, Metadata(metadata));
      if metadata == "" {
        cursor := cursor - 1;
      }
      assert rows[..cursor] == Head(metadata);
      if !binary {
        cursor := ClaimModel(cursor, model, options);
      }
      rows := rows[..cursor];
    }

    method RowForModel(m: nat) returns (best: nat)
      ensures best == RowForModelRow(rows, m)
    {
      best := 0;
      var i := 0;
      while i < |rows|
        invariant i <= |rows| && RowForModelRow(rows, m) == RowFrom(rows, m, i, best)
      {
        match rows[i] {
          case Metadata(_) =>
          case Model(index) =>
            if index == m {
              return i;
            }
            if index <= m {
              best := i;
            }
          case Collapsed(_, runStart, _, _, _, _) =>
            if runStart <= m {
              best := i;
            }
        }
        i := i + 1;
      }
    }

    method ModelRowFor(p: nat) returns (m: nat)
      ensures m == ToModelRow(rows, p)
    {
      if p >= |rows| {
        return 0;
      }
      if rows[p].Model? {
        return rows[p].index;
      }
      var i := p + 1;
      while i < |rows|
        invariant p < i <= |rows| && NextModel(rows, p + 1) == NextModel(rows, i)
      {
        if rows[i].Model? {
          return rows[i].index;
        }
        i := i + 1;
      }
      i := p;
      while i > 0
        invariant 0 <= i <= p && LastModel(rows, p) == LastModel(rows, i)
      {
        i := i - 1;
        if rows[i].Model? {
          return rows[i].index;
        }
      }
      m := 0;
    }
  }

}
