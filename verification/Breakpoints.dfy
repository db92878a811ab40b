/** The breakpoint store: for each file, its breakpoints in ascending order of line. */
module Breakpoints {
  import opened Basics
  import opened EditPositions
  import opened Sorting

  datatype Breakpoint = Breakpoint(line: nat, enabled: bool, condition: Option<string>, hitCondition: Option<string>,
                                   logMessage: Option<string>, verified: bool, adapterId: int, verifyMessage: string)

  datatype Field = Condition | HitCondition | LogMessage

  /** The lists by normalized path. */
  type Store = map<string, seq<Breakpoint>>

  function Bare(line: nat): Breakpoint {
    Breakpoint(line, true, None, None, None, false, 0, "")
  }

  function GetField(b: Breakpoint, field: Field): Option<string> {
    match field
    case Condition => b.condition
    case HitCondition => b.hitCondition
    case LogMessage => b.logMessage
  }

  function WithField(b: Breakpoint, field: Field, value: Option<string>): Breakpoint {
    match field
    case Condition => b.(condition := value)
    case HitCondition => b.(hitCondition := value)
    case LogMessage => b.(logMessage := value)
  }

  // ----- One list -----

  ghost predicate Ascending(bps: seq<Breakpoint>) {
    forall k | 0 < k < |bps| :: bps[k - 1].line <= bps[k].line
  }

  ghost predicate StrictlyAscending(bps: seq<Breakpoint>) {
    forall k | 0 < k < |bps| :: bps[k - 1].line < bps[k].line
  }

  /** The first entry, from `k` on, at or after `line`. */
  function LowerBoundFrom(bps: seq<Breakpoint>, line: nat, k: nat): (r: nat)
    requires k <= |bps|
    ensures k <= r <= |bps|
    ensures r < |bps| ==> line <= bps[r].line
    ensures forall i | k <= i < r :: bps[i].line < line
    decreases |bps| - k
  {
    if k == |bps| || line <= bps[k].line then k else LowerBoundFrom(bps, line, k + 1)
  }

  function LowerBound(bps: seq<Breakpoint>, line: nat): (r: nat)
    ensures r <= |bps|
    ensures r < |bps| ==> line <= bps[r].line
    ensures forall i | 0 <= i < r :: bps[i].line < line
  {
    LowerBoundFrom(bps, line, 0)
  }

  predicate HasLine(bps: seq<Breakpoint>, line: nat) {
    var k := LowerBound(bps, line);
    k < |bps| && bps[k].line == line
  }

  /** The breakpoint on a line, independently of the order: the first entry with that line. */
  function At(bps: seq<Breakpoint>, line: nat): Option<Breakpoint> {
    if bps == [] then None
    else if bps[0].line == line then Some(bps[0])
    else At(bps[1..], line)
  }

  function Inserted(bps: seq<Breakpoint>, b: Breakpoint): seq<Breakpoint> {
    var k := LowerBound(bps, b.line);
    bps[..k] + [b] + bps[k..]
  }

  function Erased(bps: seq<Breakpoint>, line: nat): seq<Breakpoint>
    requires HasLine(bps, line)
  {
    var k := LowerBound(bps, line);
    bps[..k] + bps[k + 1..]
  }

  /** The breakpoint on a line, or a new one. */
  function Current(bps: seq<Breakpoint>, line: nat): (b: Breakpoint)
    ensures b.line == line
  {
    if HasLine(bps, line) then bps[LowerBound(bps, line)] else Bare(line)
  }

  /** `b` in place of the breakpoint on its line, or added. */
  function Stored(bps: seq<Breakpoint>, b: Breakpoint): seq<Breakpoint> {
    if HasLine(bps, b.line) then bps[LowerBound(bps, b.line) := b] else Inserted(bps, b)
  }

  lemma {:induction false} AscendingFrom(bps: seq<Breakpoint>, i: nat, k: nat)
    requires Ascending(bps) && i <= k < |bps|
    ensures bps[i].line <= bps[k].line
  {
    if i < k {
      AscendingFrom(bps, i, k - 1);
    }
  }

  lemma {:induction false} StrictIsAscending(bps: seq<Breakpoint>)
    requires StrictlyAscending(bps)
    ensures Ascending(bps)
  {
  }

  /** Where `At` finds a line. */
  lemma {:induction false} AtIndex(bps: seq<Breakpoint>, line: nat, k: nat)
    requires k <= |bps| && (k < |bps| ==> bps[k].line == line)
    requires forall i | 0 <= i < k :: bps[i].line != line
    ensures At(bps, line) == if k < |bps| then Some(bps[k]) else None
  {
    if 0 < k {
      AtIndex(bps[1..], line, k - 1);
    }
  }

  /** On a sorted list the binary search agrees with the plain lookup. */
  lemma {:induction false} SearchFindsLine(bps: seq<Breakpoint>, line: nat)
    requires Ascending(bps)
    ensures HasLine(bps, line) <==> At(bps, line).Some?
    ensures HasLine(bps, line) ==> At(bps, line) == Some(Current(bps, line))
  {
    var k := LowerBound(bps, line);
    if HasLine(bps, line) {
      AtIndex(bps, line, k);
    } else {
      forall i | 0 <= i < |bps| ensures bps[i].line != line {
        if k <= i {
          AscendingFrom(bps, k, i);
        }
      }
      AtIndex(bps, line, |bps|);
    }
  }

  lemma {:induction false} AtOutside(bps: seq<Breakpoint>, k: nat, line: nat)
    requires k <= |bps|
    ensures At(bps, line) == if At(bps[..k], line).Some? then At(bps[..k], line) else At(bps[k..], line)
  {
    if 0 < k {
      AtOutside(bps[1..], k - 1, line);
      assert bps[1..][..k - 1] == bps[..k][1..] && bps[1..][k - 1..] == bps[k..];
    } else {
      assert bps[..0] == [] && bps[0..] == bps;
    }
  }

  lemma {:induction false} AtConcat(a: seq<Breakpoint>, b: seq<Breakpoint>, line: nat)
    ensures At(a + b, line) == if At(a, line).Some? then At(a, line) else At(b, line)
  {
    AtOutside(a + b, |a|, line);
    assert (a + b)[..|a|] == a && (a + b)[|a|..] == b;
  }

  lemma {:induction false} AtSingle(b: Breakpoint, line: nat)
    ensures At([b], line) == if b.line == line then Some(b) else None
  {
  }

  /** Insertion keeps the order, adds its line and leaves the others. */
  lemma {:induction false} InsertLaw(bps: seq<Breakpoint>, b: Breakpoint, line: nat)
    requires StrictlyAscending(bps) && !HasLine(bps, b.line)
    ensures StrictlyAscending(Inserted(bps, b))
    ensures At(Inserted(bps, b), line) == if line == b.line then Some(b) else At(bps, line)
  {
    var k := LowerBound(bps, b.line);
    InsertKeepsOrder(bps, b);
    AtConcat(bps[..k] + [b], bps[k..], line);
    AtConcat(bps[..k], [b], line);
    AtSingle(b, line);
    AtOutside(bps, k, line);
    if line == b.line {
      AtIndex(bps[..k], line, k);
    }
  }

  lemma {:induction false} InsertKeepsOrder(bps: seq<Breakpoint>, b: Breakpoint)
    ensures Ascending(bps) ==> Ascending(Inserted(bps, b))
    ensures StrictlyAscending(bps) && !HasLine(bps, b.line) ==> StrictlyAscending(Inserted(bps, b))
  {
    hide LowerBoundFrom, LowerBound;
    var k := LowerBound(bps, b.line);
    var r := Inserted(bps, b);
    assert forall i | 0 <= i < |r| :: r[i] == if i < k then bps[i] else if i == k then b else bps[i - 1];
  }

  lemma {:induction false} EraseKeepsOrder(bps: seq<Breakpoint>, line: nat)
    requires HasLine(bps, line)
    ensures Ascending(bps) ==> Ascending(Erased(bps, line))
    ensures StrictlyAscending(bps) ==> StrictlyAscending(Erased(bps, line))
  {
    var k := LowerBound(bps, line);
    var r := Erased(bps, line);
    assert forall i | 0 <= i < |r| :: r[i] == if i < k then bps[i] else bps[i + 1];
    if 0 < k < |bps| - 1 {
      assert bps[k - 1].line < bps[k].line <= bps[k].line;
      if Ascending(bps) {
        AscendingFrom(bps, k, k + 1);
      }
      if StrictlyAscending(bps) {
        StrictIsAscending(bps);
        AscendingFrom(bps, k, k + 1);
      }
    }
  }

  lemma {:induction false} StoreKeepsOrder(bps: seq<Breakpoint>, b: Breakpoint)
    ensures Ascending(bps) ==> Ascending(Stored(bps, b))
    ensures StrictlyAscending(bps) ==> StrictlyAscending(Stored(bps, b))
  {
    InsertKeepsOrder(bps, b);
  }

  /** Erasing takes the line away and leaves the others. */
  lemma {:induction false} EraseLaw(bps: seq<Breakpoint>, erased: nat, line: nat)
    requires StrictlyAscending(bps) && HasLine(bps, erased)
    ensures At(Erased(bps, erased), line) == if line == erased then None else At(bps, line)
  {
    var k := LowerBound(bps, erased);
    AtConcat(bps[..k], bps[k + 1..], line);
    AtOutside(bps, k, line);
    assert bps[k..] == [bps[k]] + bps[k + 1..];
    if line == erased {
      AtIndex(bps[..k], line, k);
      StrictIsAscending(bps);
      forall i | k < i < |bps| ensures bps[i].line != line {
        AscendingFrom(bps, k + 1, i);
      }
      AtIndex(bps[k + 1..], line, |bps| - k - 1);
    }
  }

  /** Storing a breakpoint decides its line and leaves the others. */
  lemma {:induction false} StoreLaw(bps: seq<Breakpoint>, b: Breakpoint, line: nat)
    requires StrictlyAscending(bps)
    ensures At(Stored(bps, b), line) == if line == b.line then Some(b) else At(bps, line)
  {
    if HasLine(bps, b.line) {
      UpdateLaw(bps, b, line);
    } else {
      InsertLaw(bps, b, line);
    }
  }

  lemma {:induction false} UpdateLaw(bps: seq<Breakpoint>, b: Breakpoint, line: nat)
    requires HasLine(bps, b.line)
    ensures At(Stored(bps, b), line) == if line == b.line then Some(b) else At(bps, line)
  {
    var k := LowerBound(bps, b.line);
    var r := Stored(bps, b);
    AtOutside(bps, k, line);
    AtOutside(r, k, line);
    assert r[..k] == bps[..k] && r[k..] == [b] + bps[k + 1..] && bps[k..] == [bps[k]] + bps[k + 1..];
    if line == b.line {
      AtIndex(bps[..k], line, k);
    }
  }

  // ----- The shift after an edit -----

  /** Where the line of a breakpoint goes: the case analysis of the store.  Its clamp at zero is never
      needed, since a line after the edit stays at or after the edit's first line. */
  function ShiftLine(line: nat, edit: AppliedEdit): nat {
    var r := Normalized(edit.rangeBefore);
    var s, e := r.start.line, r.end.line;
    var newEndLine := s + CountBreaks(edit.replacement);
    if line <= s then line
    else if e < line then line + (newEndLine - e)
    else newEndLine
  }

  lemma {:induction false} InsertedEndLine(edit: AppliedEdit)
    ensures InsertedEnd(edit).line == Normalized(edit.rangeBefore).start.line + CountBreaks(edit.replacement)
  {
    ClosedForm(Normalized(edit.rangeBefore).start, edit.replacement);
  }

  /** The shift is the line part of mapping the line's first position. */
  lemma {:induction false} ShiftIsLineOfMap(line: nat, edit: AppliedEdit)
    ensures ShiftLine(line, edit) == MapPosition(Position(line, 0), edit).line
  {
    InsertedEndLine(edit);
  }

  lemma {:induction false} ShiftIsMonotone(line: nat, other: nat, edit: AppliedEdit)
    requires line <= other
    ensures ShiftLine(line, edit) <= ShiftLine(other, edit)
  {
    ShiftIsLineOfMap(line, edit);
    ShiftIsLineOfMap(other, edit);
    MapIsMonotone(Position(line, 0), Position(other, 0), edit);
  }

  function ShiftAll(bps: seq<Breakpoint>, edit: AppliedEdit): (r: seq<Breakpoint>)
    ensures |r| == |bps|
    ensures forall k | 0 <= k < |r| :: r[k] == bps[k].(line := ShiftLine(bps[k].line, edit))
  {
    if bps == [] then []
    else ShiftAll(bps[..|bps| - 1], edit) + [bps[|bps| - 1].(line := ShiftLine(bps[|bps| - 1].line, edit))]
  }

  /** Of neighbours on one line only the first is kept. */
  function Unique(bps: seq<Breakpoint>): (r: seq<Breakpoint>)
    ensures bps == [] <==> r == []
    ensures bps != [] ==> r[|r| - 1].line == bps[|bps| - 1].line
  {
    if bps == [] then []
    else
      var rest := Unique(bps[..|bps| - 1]);
      var b := bps[|bps| - 1];
      if rest != [] && rest[|rest| - 1].line == b.line then rest else rest + [b]
  }

  /** What is stored after a shift. */
  function Shifted(bps: seq<Breakpoint>, edit: AppliedEdit): seq<Breakpoint> {
    if ShiftAll(bps, edit) == bps then bps else Unique(ShiftAll(bps, edit))
  }

  lemma {:induction false} ShiftKeepsOrder(bps: seq<Breakpoint>, edit: AppliedEdit)
    requires Ascending(bps)
    ensures Ascending(ShiftAll(bps, edit))
  {
    forall k | 0 < k < |bps| ensures ShiftLine(bps[k - 1].line, edit) <= ShiftLine(bps[k].line, edit) {
      ShiftIsMonotone(bps[k - 1].line, bps[k].line, edit);
    }
  }

  lemma {:induction false} UniqueIsStrict(bps: seq<Breakpoint>)
    requires Ascending(bps)
    ensures StrictlyAscending(Unique(bps))
  {
    if bps != [] {
      var n := |bps| - 1;
      UniqueIsStrict(bps[..n]);
      assert n > 0 ==> bps[n - 1].line <= bps[n].line;
    }
  }

  /** Dropping repetitions keeps, for every line, the first breakpoint on it. */
  lemma {:induction false} UniqueKeepsFirst(bps: seq<Breakpoint>, line: nat)
    ensures At(Unique(bps), line) == At(bps, line)
  {
    if bps != [] {
      var n := |bps| - 1;
      UniqueKeepsFirst(bps[..n], line);
      AtConcat(bps[..n], [bps[n]], line);
      assert bps == bps[..n] + [bps[n]];
      var rest := Unique(bps[..n]);
      AtConcat(rest, [bps[n]], line);
      if rest != [] && rest[|rest| - 1].line == bps[n].line == line {
        AtLast(rest, line);
      }
      AtSingle(bps[n], line);
    }
  }

  lemma {:induction false} AtLast(bps: seq<Breakpoint>, line: nat)
    requires bps != [] && bps[|bps| - 1].line == line
    ensures At(bps, line).Some?
  {
    var n := |bps| - 1;
    AtConcat(bps[..n], [bps[n]], line);
    assert bps == bps[..n] + [bps[n]];
    AtSingle(bps[n], line);
  }

  /** The breakpoint found on a line after a shift is the first that moved there. */
  lemma {:induction false} ShiftLaw(bps: seq<Breakpoint>, edit: AppliedEdit, line: nat)
    requires StrictlyAscending(bps)
    ensures StrictlyAscending(Shifted(bps, edit))
    ensures At(Shifted(bps, edit), line) == At(ShiftAll(bps, edit), line)
    ensures Shifted(bps, edit) == [] <==> bps == []
  {
    StrictIsAscending(bps);
    ShiftKeepsOrder(bps, edit);
    UniqueIsStrict(ShiftAll(bps, edit));
    UniqueKeepsFirst(ShiftAll(bps, edit), line);
  }

  lemma {:induction false} ShiftedKeepsOrder(bps: seq<Breakpoint>, edit: AppliedEdit)
    ensures Ascending(bps) ==> Ascending(Shifted(bps, edit))
    ensures StrictlyAscending(bps) ==> StrictlyAscending(Shifted(bps, edit))
  {
    if StrictlyAscending(bps) {
      StrictIsAscending(bps);
    }
    if Ascending(bps) {
      ShiftKeepsOrder(bps, edit);
      UniqueIsStrict(ShiftAll(bps, edit));
      StrictIsAscending(Unique(ShiftAll(bps, edit)));
    }
  }

  predicate LineNotAfter(a: Breakpoint, b: Breakpoint) {
    a.line <= b.line
  }

  lemma {:induction false} AscendingIsSorted(bps: seq<Breakpoint>)
    ensures Ascending(bps) <==> Sorted(bps, LineNotAfter)
  {
    if Ascending(bps) {
      forall i, k | 0 <= i < k < |bps| ensures LineNotAfter(bps[i], bps[k]) {
        AscendingFrom(bps, i, k);
      }
    }
    if Sorted(bps, LineNotAfter) {
      forall k | 0 < k < |bps| ensures bps[k - 1].line <= bps[k].line {
        assert LineNotAfter(bps[k - 1], bps[k]);
      }
    }
  }

  // ----- The store -----

  function ListOf(m: Store, path: string): seq<Breakpoint> {
    if path in m then m[path] else []
  }

  /** A file whose list becomes empty is dropped. */
  function Put(m: Store, path: string, bps: seq<Breakpoint>): Store {
    if bps == [] then m - {path} else m[path := bps]
  }

  datatype Op =
    | Toggle(path: string, line: nat)
    | Set(path: string, line: nat, enabled: bool)
    | ToggleEnabled(path: string, line: nat)
    | SetOptionalField(path: string, line: nat, field: Field, value: Option<string>)
    | Remove(path: string, line: nat)
    | ClearFile(path: string)
    | Clear
    | ShiftForAppliedEdit(path: string, edit: AppliedEdit)
    | ReplaceAll(files: seq<FileBreakpoints>)

  /** What an operation does to the list of the file it names. */
  function ListStep(bps: seq<Breakpoint>, op: Op): seq<Breakpoint>
    requires !op.ReplaceAll?
  {
    match op
    case Toggle(_, line) => if HasLine(bps, line) then Erased(bps, line) else Inserted(bps, Bare(line))
    case Set(_, line, enabled) => Stored(bps, Current(bps, line).(enabled := enabled))
    case ToggleEnabled(_, line) =>
      if HasLine(bps, line) then Stored(bps, Current(bps, line).(enabled := !Current(bps, line).enabled)) else bps
    case SetOptionalField(_, line, field, value) =>
      if value.None? && !HasLine(bps, line) then bps
      else Stored(bps, WithField(Current(bps, line), field, value))
    case Remove(_, line) => if HasLine(bps, line) then Erased(bps, line) else bps
    case ClearFile(_) => []
    case Clear => []
    case ShiftForAppliedEdit(_, edit) => Shifted(bps, edit)
  }

  function Step(m: Store, op: Op): Store {
    if op.Clear? then map[]
    else if op.ReplaceAll? then Replacement(op.files)
    else if op.path == "" then m
    else Put(m, op.path, ListStep(ListOf(m, op.path), op))
  }

  function Run(m: Store, ops: seq<Op>): Store {
    if ops == [] then m else Step(Run(m, ops[..|ops| - 1]), ops[|ops| - 1])
  }

  /** Every stored list is non-empty and in ascending order of line. */
  ghost predicate InOrder(m: Store) {
    forall path | path in m :: path != "" && m[path] != [] && Ascending(m[path])
  }

  /** ...with at most one breakpoint on a line. */
  ghost predicate OnePerLine(m: Store) {
    forall path | path in m :: path != "" && m[path] != [] && StrictlyAscending(m[path])
  }

  lemma {:induction false} ListStepKeepsOrder(bps: seq<Breakpoint>, op: Op)
    requires !op.ReplaceAll?
    ensures Ascending(bps) ==> Ascending(ListStep(bps, op))
    ensures StrictlyAscending(bps) ==> StrictlyAscending(ListStep(bps, op))
  {
    match op
    case Toggle(_, line) =>
      if HasLine(bps, line) { EraseKeepsOrder(bps, line); } else { InsertKeepsOrder(bps, Bare(line)); }
    case Set(_, line, enabled) => StoreKeepsOrder(bps, Current(bps, line).(enabled := enabled));
    case ToggleEnabled(_, line) => StoreKeepsOrder(bps, Current(bps, line).(enabled := !Current(bps, line).enabled));
    case SetOptionalField(_, line, field, value) => StoreKeepsOrder(bps, WithField(Current(bps, line), field, value));
    case Remove(_, line) => if HasLine(bps, line) { EraseKeepsOrder(bps, line); }
    case ClearFile(_) =>
    case Clear =>
    case ShiftForAppliedEdit(_, edit) => ShiftedKeepsOrder(bps, edit);
  }

  lemma {:induction false} PutKeepsOrder(m: Store, path: string, bps: seq<Breakpoint>)
    requires path != ""
    ensures InOrder(m) && Ascending(bps) ==> InOrder(Put(m, path, bps))
    ensures OnePerLine(m) && StrictlyAscending(bps) ==> OnePerLine(Put(m, path, bps))
  {
  }

  lemma {:induction false} PutSame(m: Store, path: string)
    requires InOrder(m)
    ensures Put(m, path, ListOf(m, path)) == m
  {
  }

  /** Writing a field in place, in the list that holds a breakpoint there, is a step. */
  lemma {:induction false} FieldStored(path: string, held: seq<Breakpoint>, line: nat, field: Field,
                                       value: Option<string>)
    requires value.Some? || HasLine(held, line)
    ensures var k, bps := LowerBound(held, line), if HasLine(held, line) then held else Inserted(held, Bare(line));
            && k < |bps|
            && ListStep(held, Op.SetOptionalField(path, line, field, value))
                == bps[k := WithField(Current(held, line), field, value)]
            && (GetField(bps[k], field) == value ==> bps[k := WithField(bps[k], field, value)] == held)
            && (GetField(bps[k], field) != value ==> bps[k := WithField(bps[k], field, value)] != held)
  {
    hide LowerBoundFrom;
  }


  // ----- Replacing everything -----

  function Settled(bps: seq<Breakpoint>): (r: seq<Breakpoint>)
    ensures |r| == |bps|
    ensures forall k | 0 <= k < |r| :: r[k] == bps[k].(verified := false, adapterId := 0, verifyMessage := "")
  {
    if bps == [] then []
    else Settled(bps[..|bps| - 1]) + [bps[|bps| - 1].(verified := false, adapterId := 0, verifyMessage := "")]
  }

  datatype FileBreakpoints = FileBreakpoints(path: string, breakpoints: seq<Breakpoint>)

  /** What is stored for the first files of a replacement: sorted, without verification state; a later
      entry for the same file replaces an earlier one. */
  function Replacement(files: seq<FileBreakpoints>): Store {
    if files == [] then map[]
    else
      var file := files[|files| - 1];
      var earlier := Replacement(files[..|files| - 1]);
      if file.path == "" || file.breakpoints == [] then earlier
      else earlier[file.path := Settled(SortBy(file.breakpoints, LineNotAfter))]
  }

  ghost predicate DistinctLines(bps: seq<Breakpoint>) {
    forall i, k | 0 <= i < k < |bps| :: bps[i].line != bps[k].line
  }

  lemma {:induction false} LineOrder()
    ensures TotalPreorder(LineNotAfter)
  {
  }

  lemma {:induction false} SettledKeepsLines(bps: seq<Breakpoint>)
    ensures Ascending(bps) ==> Ascending(Settled(bps))
    ensures StrictlyAscending(Settled(bps)) <==> StrictlyAscending(bps)
  {
  }

  lemma {:induction false} InsertAmong(b: Breakpoint, bps: seq<Breakpoint>)
    ensures DistinctLines(Insert(b, bps, LineNotAfter)) <==> DistinctLines([b] + bps)
    ensures |Insert(b, bps, LineNotAfter)| == |bps| + 1
    ensures forall line :: At(Insert(b, bps, LineNotAfter), line).None? <==> At([b] + bps, line).None?
  {
    if bps == [] || LineNotAfter(b, bps[0]) {
    } else {
      var rest := Insert(b, bps[1..], LineNotAfter);
      InsertAmong(b, bps[1..]);
      DistinctHead(bps[0], rest);
      DistinctHead(b, bps);
      DistinctHead(b, bps[1..]);
      DistinctHead(bps[0], bps[1..]);
      assert bps == [bps[0]] + bps[1..];
      forall line ensures At([bps[0]] + rest, line).None? <==> At([b] + bps, line).None? {
        AtConcat([bps[0]], rest, line);
        AtConcat([b], bps, line);
        AtConcat([bps[0]], bps[1..], line);
        AtConcat([b], bps[1..], line);
      }
    }
  }

  lemma {:induction false} DistinctHead(b: Breakpoint, bps: seq<Breakpoint>)
    ensures DistinctLines([b] + bps) <==> DistinctLines(bps) && At(bps, b.line).None?
  {
    var all := [b] + bps;
    if At(bps, b.line).None? {
      forall k | 0 <= k < |bps| ensures bps[k].line != b.line {
        NotFound(bps, b.line, k);
      }
      if DistinctLines(bps) {
        forall i, k | 0 <= i < k < |all| ensures all[i].line != all[k].line {
          assert all[k] == bps[k - 1];
          assert i > 0 ==> all[i] == bps[i - 1];
        }
      }
    }
    if DistinctLines(all) {
      forall i, k | 0 <= i < k < |bps| ensures bps[i].line != bps[k].line {
        assert all[i + 1] == bps[i] && all[k + 1] == bps[k];
      }
      forall k | 0 <= k < |bps| ensures bps[k].line != b.line {
        assert all[0] == b && all[k + 1] == bps[k];
      }
      AtIndex(bps, b.line, |bps|);
    }
  }

  lemma {:induction false} NotFound(bps: seq<Breakpoint>, line: nat, k: nat)
    requires At(bps, line).None? && k < |bps|
    ensures bps[k].line != line
  {
    if 0 < k {
      NotFound(bps[1..], line, k - 1);
    }
  }

  lemma {:induction false} SortKeepsDistinct(bps: seq<Breakpoint>)
    ensures DistinctLines(SortBy(bps, LineNotAfter)) <==> DistinctLines(bps)
    ensures forall line :: At(SortBy(bps, LineNotAfter), line).None? <==> At(bps, line).None?
  {
    if bps != [] {
      var rest := SortBy(bps[1..], LineNotAfter);
      SortKeepsDistinct(bps[1..]);
      InsertAmong(bps[0], rest);
      DistinctHead(bps[0], rest);
      DistinctHead(bps[0], bps[1..]);
      assert bps == [bps[0]] + bps[1..];
      forall line ensures At([bps[0]] + rest, line).None? <==> At(bps, line).None? {
        AtConcat([bps[0]], rest, line);
        AtConcat([bps[0]], bps[1..], line);
      }
    }
  }

  lemma {:induction false} StrictIffDistinct(bps: seq<Breakpoint>)
    requires Ascending(bps)
    ensures StrictlyAscending(bps) <==> DistinctLines(bps)
  {
    if StrictlyAscending(bps) {
      forall i, k | 0 <= i < k < |bps| ensures bps[i].line != bps[k].line {
        AscendingFrom(bps, i + 1, k);
      }
    }
  }

  /** A replaced list is sorted; it has one breakpoint per line exactly if its input had. */
  lemma {:induction false} ReplacedListOrder(bps: seq<Breakpoint>)
    ensures Ascending(Settled(SortBy(bps, LineNotAfter)))
    ensures StrictlyAscending(Settled(SortBy(bps, LineNotAfter))) <==> DistinctLines(bps)
    ensures |SortBy(bps, LineNotAfter)| == |bps|
  {
    var sorted := SortBy(bps, LineNotAfter);
    LineOrder();
    SortBySorts(bps, LineNotAfter);
    AscendingIsSorted(sorted);
    SettledKeepsLines(sorted);
    SortKeepsDistinct(bps);
    StrictIffDistinct(sorted);
  }

  lemma {:induction false} ReplacementInOrder(files: seq<FileBreakpoints>)
    ensures InOrder(Replacement(files))
  {
    if files != [] {
      ReplacementInOrder(files[..|files| - 1]);
      ReplacedListOrder(files[|files| - 1].breakpoints);
    }
  }

  /** The list a replacement stores for a file: the last non-empty one, none for the empty path. */
  function LastList(files: seq<FileBreakpoints>, path: string): seq<Breakpoint> {
    if files == [] then []
    else
      var file := files[|files| - 1];
      if file.path == path && path != "" && file.breakpoints != [] then file.breakpoints
      else LastList(files[..|files| - 1], path)
  }

  lemma {:induction false} ReplacementHolds(files: seq<FileBreakpoints>, path: string)
    ensures path in Replacement(files) <==> LastList(files, path) != []
    ensures path in Replacement(files) ==>
            && path != ""
            && Replacement(files)[path] == Settled(SortBy(LastList(files, path), LineNotAfter))
  {
    hide SortBy, Settled;
    if files != [] {
      ReplacementHolds(files[..|files| - 1], path);
    }
  }

  /** No list that a replacement stores has two breakpoints on a line. */
  ghost predicate DistinctLists(files: seq<FileBreakpoints>) {
    forall path :: DistinctLines(LastList(files, path))
  }

  /** After everything is replaced no file has two breakpoints on a line exactly when no list that was
      stored had. */
  lemma {:induction false} ReplacementOnePerLine(files: seq<FileBreakpoints>)
    ensures OnePerLine(Replacement(files)) <==> DistinctLists(files)
  {
    if OnePerLine(Replacement(files)) {
      forall path ensures DistinctLines(LastList(files, path)) {
        StoredOnePerLine(files, path);
      }
    }
    if DistinctLists(files) {
      var m := Replacement(files);
      forall path | path in m ensures path != "" && m[path] != [] && StrictlyAscending(m[path]) {
        StoredOnePerLine(files, path);
        assert DistinctLines(LastList(files, path));
      }
    }
  }

  lemma {:induction false} StoredOnePerLine(files: seq<FileBreakpoints>, path: string)
    ensures path !in Replacement(files) ==> DistinctLines(LastList(files, path))
    ensures path in Replacement(files) ==>
              && path != "" && Replacement(files)[path] != []
              && (StrictlyAscending(Replacement(files)[path]) <==> DistinctLines(LastList(files, path)))
  {
    ReplacementHolds(files, path);
    ReplacedListOrder(LastList(files, path));
  }

  /** A file given two breakpoints on one line keeps both. */
  lemma {:induction false} ReplacementMayRepeatLines()
    ensures !OnePerLine(Replacement([FileBreakpoints("a.cpp", [Bare(7), Bare(7)])]))
  {
    var file := FileBreakpoints("a.cpp", [Bare(7), Bare(7)]);
    ReplacementOnePerLine([file]);
    assert LastList([file], "a.cpp") == file.breakpoints;
    assert file.breakpoints[0].line == file.breakpoints[1].line;
  }

  lemma {:induction false} ErasedStored(path: string, held: seq<Breakpoint>, line: nat)
    requires HasLine(held, line)
    ensures var k := LowerBound(held, line);
            && k < |held|
            && ListStep(held, Op.Remove(path, line)) == held[..k] + held[k + 1..]
            && |ListStep(held, Op.Remove(path, line))| == |held| - 1
  {
  }

  /** What a replacement must meet to keep one breakpoint per line. */
  ghost predicate ReplacesDistinctly(op: Op) {
    op.ReplaceAll? ==> DistinctLists(op.files)
  }

  /** Every operation keeps the lists sorted, and strictly sorted if they were; a replacement makes them
      strictly sorted exactly when no list it stores repeats a line. */
  lemma {:induction false} StepKeepsOrder(m: Store, op: Op)
    ensures InOrder(m) ==> InOrder(Step(m, op))
    ensures OnePerLine(m) && ReplacesDistinctly(op) ==> OnePerLine(Step(m, op))
    ensures OnePerLine(Step(m, op)) ==> ReplacesDistinctly(op)
  {
    if op.ReplaceAll? {
      ReplacementInOrder(op.files);
      ReplacementOnePerLine(op.files);
    } else if !op.Clear? && op.path != "" {
      var bps := ListOf(m, op.path);
      ListStepKeepsOrder(bps, op);
      assert (InOrder(m) ==> Ascending(bps)) && (OnePerLine(m) ==> StrictlyAscending(bps));
      PutKeepsOrder(m, op.path, ListStep(bps, op));
    }
  }

  /** After any run from an empty store every list is sorted. */
  lemma {:induction false} RunsKeepOrder(ops: seq<Op>)
    ensures InOrder(Run(map[], ops))
  {
    if ops != [] {
      RunsKeepOrder(ops[..|ops| - 1]);
      StepKeepsOrder(Run(map[], ops[..|ops| - 1]), ops[|ops| - 1]);
    }
  }

  /** At no point of a run from an empty store does a file have two breakpoints on a line. */
  ghost predicate OnePerLineThroughout(ops: seq<Op>) {
    forall n | 0 <= n <= |ops| :: OnePerLine(Run(map[], ops[..n]))
  }

  /** No list that a replacement of the run stores repeats a line. */
  ghost predicate ReplacesDistinctlyThroughout(ops: seq<Op>) {
    forall op | op in ops :: ReplacesDistinctly(op)
  }

  lemma {:induction false} NothingRun()
    ensures OnePerLineThroughout([]) && ReplacesDistinctlyThroughout([])
  {
  }

  lemma {:induction false} OneMoreRun(before: seq<Op>, last: Op)
    ensures Run(map[], before + [last]) == Step(Run(map[], before), last)
    ensures OnePerLineThroughout(before) ==> OnePerLine(Run(map[], before))
    ensures OnePerLineThroughout(before + [last])
       <==> OnePerLineThroughout(before) && OnePerLine(Run(map[], before + [last]))
    ensures ReplacesDistinctlyThroughout(before + [last])
       <==> ReplacesDistinctlyThroughout(before) && ReplacesDistinctly(last)
  {
    hide OnePerLine, ReplacesDistinctly, Step;
    var ops := before + [last];
    assert ops[..|ops|] == ops && before[..|before|] == before;
    assert forall n | 0 <= n <= |before| :: before[..n] == ops[..n];
  }

  /** ...exactly when none of its replacements stores a list that repeats a line. */
  lemma {:induction false} RunsKeepOnePerLine(ops: seq<Op>)
    ensures OnePerLineThroughout(ops) <==> ReplacesDistinctlyThroughout(ops)
  {
    hide OnePerLineThroughout, ReplacesDistinctlyThroughout, OnePerLine, ReplacesDistinctly, Run, Step;
    if ops == [] {
      NothingRun();
    } else {
      var before, last := ops[..|ops| - 1], ops[|ops| - 1];
      assert ops == before + [last];
      RunsKeepOnePerLine(before);
      OneMoreRun(before, last);
      StepKeepsOrder(Run(map[], before), last);
    }
  }

  // ----- The class -----

  class BreakpointStore {
    var byPath: Store
    var revision: nat

    ghost predicate Valid()
      reads this
    {
      InOrder(byPath)
    }

    constructor ()
      ensures Valid() && byPath == map[] && revision == 0
    {
      byPath, revision := map[], 0;
    }

    /** True if a breakpoint was added, false if one was removed. */
    method Toggle(path: string, line: nat) returns (added: bool)
      requires Valid()
      modifies this
      ensures Valid() && byPath == Step(old(byPath), Op.Toggle(path, line))
      ensures added <==> path != "" && !HasLine(ListOf(old(byPath), path), line)
      ensures revision == old(revision) + if path == "" then 0 else 1
    {
      hide InOrder, OnePerLine, Ascending, StrictlyAscending, ReplacesDistinctly, Replacement;
      StepKeepsOrder(byPath, Op.Toggle(path, line));
      if path == "" {
        return false;
      }
      var bps := ListOf(byPath, path);
      var k := LowerBound(bps, line);
      if k < |bps| && bps[k].line == line {
        bps := bps[..k] + bps[k + 1..];
        byPath := if bps == [] then byPath - {path} else byPath[path := bps];
        revision := revision + 1;
        return false;
      }
      byPath := byPath[path := bps[..k] + [Bare(line)] + bps[k..]];
      revision := revision + 1;
      added := true;
    }

    method Set(path: string, line: nat, enabled: bool)
      requires Valid()
      modifies this
      ensures Valid() && byPath == Step(old(byPath), Op.Set(path, line, enabled))
      ensures revision == old(revision) + if byPath == old(byPath) then 0 else 1
    {
      hide InOrder, OnePerLine, Ascending, StrictlyAscending, ReplacesDistinctly, Replacement;
      StepKeepsOrder(byPath, Op.Set(path, line, enabled));
      if path == "" {
        return;
      }
      var bps := ListOf(byPath, path);
      var k := LowerBound(bps, line);
      if k < |bps| && bps[k].line == line {
        if bps[k].enabled == enabled {
          PutSame(byPath, path);
          assert Stored(bps, bps[k].(enabled := enabled)) == bps;
          return;
        }
        bps := bps[k := bps[k].(enabled := enabled)];
      } else {
        bps := bps[..k] + [Bare(line).(enabled := enabled)] + bps[k..];
      }
      ghost var held := ListOf(byPath, path);
      assert |held| == |bps| ==> bps[k] != held[k];
      byPath := byPath[path := bps];
      revision := revision + 1;
    }

    method ToggleEnabled(path: string, line: nat) returns (found: bool)
      requires Valid()
      modifies this
      ensures Valid() && byPath == Step(old(byPath), Op.ToggleEnabled(path, line))
      ensures found <==> path in old(byPath) && HasLine(old(byPath)[path], line)
      ensures revision == old(revision) + if found then 1 else 0
    {
      hide InOrder, OnePerLine, Ascending, StrictlyAscending, ReplacesDistinctly, Replacement;
      StepKeepsOrder(byPath, Op.ToggleEnabled(path, line));
      if path !in byPath {
        return false;
      }
      var bps := byPath[path];
      var k := LowerBound(bps, line);
      if k == |bps| || bps[k].line != line {
        PutSame(byPath, path);
        return false;
      }
      byPath := byPath[path := bps[k := bps[k].(enabled := !bps[k].enabled)]];
      revision := revision + 1;
      found := true;
    }

    /** Clearing a field where there is no breakpoint creates none. */
    method SetOptionalField(path: string, line: nat, field: Field, value: Option<string>)
      requires Valid()
      modifies this
      ensures Valid() && byPath == Step(old(byPath), Op.SetOptionalField(path, line, field, value))
      ensures revision == old(revision) + if byPath == old(byPath) then 0 else 1
    {
      hide InOrder, OnePerLine, Ascending, StrictlyAscending;
      StepKeepsOrder(byPath, Op.SetOptionalField(path, line, field, value));
      var held := ListOf(byPath, path);
      if path == "" || (value.None? && !HasLine(held, line)) {
        PutSame(byPath, path);
        return;
      }
      FieldStored(path, held, line, field, value);
      hide ListStep, LowerBound, HasLine, Inserted, Current;
      var bps, k := FindOrCreate(held, line);
      if GetField(bps[k], field) == value {
        PutSame(byPath, path);
        return;
      }
      bps := bps[k := WithField(bps[k], field, value)];
      byPath := byPath[path := bps];
      revision := revision + 1;
    }

    /** The list with a breakpoint on the line, and its place. */
    static method FindOrCreate(held: seq<Breakpoint>, line: nat) returns (bps: seq<Breakpoint>, k: nat)
      ensures k == LowerBound(held, line) && k < |bps| && bps[k] == Current(held, line)
      ensures bps == if HasLine(held, line) then held else Inserted(held, Bare(line))
    {
      k := LowerBound(held, line);
      bps := held;
      if k == |held| || held[k].line != line {
        bps := held[..k] + [Bare(line)] + held[k..];
      }
    }

    method Remove(path: string, line: nat)
      requires Valid()
      modifies this
      ensures Valid() && byPath == Step(old(byPath), Op.Remove(path, line))
      ensures revision == old(revision) + if byPath == old(byPath) then 0 else 1
    {
      hide InOrder, OnePerLine, Ascending, StrictlyAscending, ReplacesDistinctly, Replacement;
      StepKeepsOrder(byPath, Op.Remove(path, line));
      if path !in byPath {
        return;
      }
      var bps := byPath[path];
      var k := LowerBound(bps, line);
      if k == |bps| || bps[k].line != line {
        PutSame(byPath, path);
        return;
      }
      ErasedStored(path, bps, line);
      hide ListStep, LowerBound, HasLine;
      var rest := bps[..k] + bps[k + 1..];
      byPath := if rest == [] then byPath - {path} else byPath[path := rest];
      assert path in byPath ==> |byPath[path]| == |bps| - 1;
      revision := revision + 1;
    }

    method ClearFile(path: string)
      requires Valid()
      modifies this
      ensures Valid() && byPath == Step(old(byPath), Op.ClearFile(path))
      ensures revision == old(revision) + if byPath == old(byPath) then 0 else 1
    {
      StepKeepsOrder(byPath, Op.ClearFile(path));
      if path in byPath {
        byPath := byPath - {path};
        revision := revision + 1;
      }
    }

    method Clear()
      requires Valid()
      modifies this
      ensures Valid() && byPath == Step(old(byPath), Op.Clear)
      ensures revision == old(revision) + if old(byPath) == map[] then 0 else 1
    {
      if byPath == map[] {
        return;
      }
      byPath := map[];
      revision := revision + 1;
    }

    /** The mapped list is already sorted when it gets to the stable sort, which changes nothing. */
    method ShiftForAppliedEdit(path: string, edit: AppliedEdit) returns (changed: bool)
      requires Valid()
      modifies this
      ensures Valid() && byPath == Step(old(byPath), Op.ShiftForAppliedEdit(path, edit))
      ensures changed <==> ShiftAll(ListOf(old(byPath), path), edit) != ListOf(old(byPath), path)
      ensures revision == old(revision) + if changed then 1 else 0
    {
      StepKeepsOrder(byPath, Op.ShiftForAppliedEdit(path, edit));
      PutSame(byPath, path);
      if path !in byPath {
        return false;
      }
      var bps := byPath[path];
      var r := Normalized(edit.rangeBefore);
      if r.start.line == r.end.line && r.start.line + CountBreaks(edit.replacement) == r.end.line {
        assert ShiftAll(bps, edit) == bps;
        return false;
      }
      var shifted;
      shifted, changed := MoveLines(bps, edit);
      if changed {
        var unique := SortAndDropRepeats(shifted, bps, edit);
        byPath := byPath[path := unique];
        revision := revision + 1;
      }
    }

    static method SortAndDropRepeats(shifted: seq<Breakpoint>, ghost bps: seq<Breakpoint>, edit: AppliedEdit)
      returns (unique: seq<Breakpoint>)
      requires Ascending(bps) && shifted == ShiftAll(bps, edit)
      ensures unique == Unique(shifted)
    {
      ShiftKeepsOrder(bps, edit);
      AscendingIsSorted(shifted);
      SortBySorted(shifted, LineNotAfter);
      unique := DropRepeats(SortBy(shifted, LineNotAfter));
    }

    static method MoveLines(bps: seq<Breakpoint>, edit: AppliedEdit) returns (shifted: seq<Breakpoint>, changed: bool)
      ensures shifted == ShiftAll(bps, edit)
      ensures changed <==> shifted != bps
    {
      hide ShiftAll;
      var r := Normalized(edit.rangeBefore);
      var newEndLine := r.start.line + CountBreaks(edit.replacement);
      shifted, changed := [], false;
      var i := 0;
      while i < |bps|
        invariant i <= |bps| && shifted == ShiftAll(bps[..i], edit)
        invariant changed <==> shifted != bps[..i]
      {
        var line := bps[i].line;
        var next := line;
        if r.start.line < line {
          if r.end.line < line {
            next := line + newEndLine - r.end.line;
          } else {
            next := newEndLine;
          }
        }
        if next != line {
          changed := true;
        }
        assert bps[..i + 1][..i] == bps[..i] && bps[..i + 1] == bps[..i] + [bps[i]];
        shifted := shifted + [bps[i].(line := next)];
        assert shifted[i] == bps[i].(line := next);
        i := i + 1;
      }
      assert bps[..i] == bps;
    }

    static method DropRepeats(bps: seq<Breakpoint>) returns (kept: seq<Breakpoint>)
      ensures kept == Unique(bps)
    {
      kept := [];
      var i := 0;
      while i < |bps|
        invariant i <= |bps| && kept == Unique(bps[..i])
      {
        assert bps[..i + 1][..i] == bps[..i];
        if kept == [] || kept[|kept| - 1].line != bps[i].line {
          kept := kept + [bps[i]];
        }
        i := i + 1;
      }
      assert bps[..i] == bps;
    }

    method ReplaceAll(files: seq<FileBreakpoints>)
      modifies this
      ensures Valid() && byPath == Step(old(byPath), Op.ReplaceAll(files)) && revision == old(revision) + 1
    {
      byPath := map[];
      var i := 0;
      while i < |files|
        invariant i <= |files| && byPath == Replacement(files[..i]) && revision == old(revision)
      {
        assert files[..i + 1][..i] == files[..i];
        var file := files[i];
        if file.path != "" && file.breakpoints != [] {
          byPath := byPath[file.path := Settled(SortBy(file.breakpoints, LineNotAfter))];
        }
        i := i + 1;
      }
      assert files[..i] == files;
      ReplacementInOrder(files);
      revision := revision + 1;
    }
  }
}
