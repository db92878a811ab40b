/** What each operation of the breakpoint store does to the breakpoint seen on a line. */
module BreakpointLaws {
  import opened Basics
  import opened EditPositions
  import opened Sorting
  import opened Breakpoints

  /** The breakpoint on a line of a file, if there is one. */
  ghost function Seen(m: Store, path: string, line: nat): Option<Breakpoint> {
    At(ListOf(m, path), line)
  }

  /** The one there, or a new one: enabled, without condition, hit condition or message, and not verified. */
  ghost function OrNew(seen: Option<Breakpoint>, line: nat): Breakpoint {
    if seen.Some? then seen.value else Breakpoint(line, true, None, None, None, false, 0, "")
  }

  /** An operation on one line. */
  predicate OnLine(op: Op) {
    op.Toggle? || op.Set? || op.ToggleEnabled? || op.SetOptionalField? || op.Remove?
  }

  /** What is seen on the operation's line afterwards. */
  ghost function Changed(op: Op, seen: Option<Breakpoint>): Option<Breakpoint>
    requires OnLine(op)
  {
    match op
    case Toggle(_, line) => if seen.Some? then None else Some(OrNew(None, line))
    case Set(_, line, enabled) => Some(OrNew(seen, line).(enabled := enabled))
    case ToggleEnabled(_, line) => if seen.Some? then Some(seen.value.(enabled := !seen.value.enabled)) else None
    case Remove(_, _) => None
    case SetOptionalField(_, line, field, value) =>
      if seen.None? && value.None? then None
      else
        match field
        case Condition => Some(OrNew(seen, line).(condition := value))
        case HitCondition => Some(OrNew(seen, line).(hitCondition := value))
        case LogMessage => Some(OrNew(seen, line).(logMessage := value))
  }

  lemma {:induction false} ListAfterPut(m: Store, path: string, bps: seq<Breakpoint>, other: string)
    ensures ListOf(Put(m, path, bps), other) == if other == path then bps else ListOf(m, other)
  {
  }

  lemma {:induction false} SeenIsCurrent(bps: seq<Breakpoint>, line: nat)
    requires StrictlyAscending(bps)
    ensures HasLine(bps, line) <==> At(bps, line).Some?
    ensures Current(bps, line) == OrNew(At(bps, line), line)
  {
    StrictIsAscending(bps);
    SearchFindsLine(bps, line);
  }

  lemma {:induction false} LineAfter(bps: seq<Breakpoint>, op: Op, line: nat)
    requires StrictlyAscending(bps) && OnLine(op)
    ensures At(ListStep(bps, op), line) == if line == op.line then Changed(op, At(bps, line)) else At(bps, line)
  {
    hide HasLine, LowerBound, At, Stored, Inserted, Erased, StrictlyAscending, Current;
    SeenIsCurrent(bps, op.line);
    match op
    case Toggle(_, at) =>
      if HasLine(bps, at) { EraseLaw(bps, at, line); } else { InsertLaw(bps, Bare(at), line); }
    case Set(_, at, enabled) => StoreLaw(bps, Current(bps, at).(enabled := enabled), line);
    case ToggleEnabled(_, at) => StoreLaw(bps, Current(bps, at).(enabled := !Current(bps, at).enabled), line);
    case SetOptionalField(_, at, field, value) => StoreLaw(bps, WithField(Current(bps, at), field, value), line);
    case Remove(_, at) =>
      if HasLine(bps, at) { EraseLaw(bps, at, line); }
  }

  lemma {:induction false} ListInOrder(m: Store, path: string)
    requires OnePerLine(m)
    ensures StrictlyAscending(ListOf(m, path))
  {
  }

  /** An operation on a line of a file changes what is seen there as its name says, and nothing on any other line or
      in any other file; without a path it changes nothing. */
  lemma {:induction false} StepIsSeen(m: Store, op: Op, path: string, line: nat)
    requires OnePerLine(m) && OnLine(op)
    ensures Seen(Step(m, op), path, line)
         == if path == op.path != "" && line == op.line then Changed(op, Seen(m, path, line)) else Seen(m, path, line)
  {
    hide ListStep, At, Changed, Put, ListOf, OnePerLine;
    ListInOrder(m, op.path);
    ListAfterPut(m, op.path, ListStep(ListOf(m, op.path), op), path);
    LineAfter(ListOf(m, op.path), op, line);
  }

  /** Clearing a file leaves nothing of it and all of the others; clearing leaves nothing. */
  lemma {:induction false} ClearedIsGone(m: Store, cleared: string, path: string, line: nat)
    ensures Seen(Step(m, Op.ClearFile(cleared)), path, line)
         == if path == cleared != "" then None else Seen(m, path, line)
    ensures Seen(Step(m, Op.Clear), path, line) == None
  {
    ListAfterPut(m, cleared, [], path);
  }

  /** An edit carries the breakpoint at `k` to `line`, and none before it. */
  ghost predicate FirstCarried(bps: seq<Breakpoint>, edit: AppliedEdit, line: nat, k: nat) {
    && k < |bps| && MapPosition(Position(bps[k].line, 0), edit).line == line
    && forall i | 0 <= i < k :: MapPosition(Position(bps[i].line, 0), edit).line != line
  }

  lemma {:induction false} ShiftedFirst(bps: seq<Breakpoint>, edit: AppliedEdit, line: nat, k: nat)
    requires FirstCarried(bps, edit, line, k)
    ensures At(ShiftAll(bps, edit), line) == Some(bps[k].(line := line))
  {
    hide MapPosition, ShiftLine;
    forall i | 0 <= i <= k ensures ShiftAll(bps, edit)[i].line == MapPosition(Position(bps[i].line, 0), edit).line {
      ShiftIsLineOfMap(bps[i].line, edit);
    }
    AtIndex(ShiftAll(bps, edit), line, k);
  }

  lemma {:induction false} ShiftedNone(bps: seq<Breakpoint>, edit: AppliedEdit, line: nat)
    requires forall i | 0 <= i < |bps| :: MapPosition(Position(bps[i].line, 0), edit).line != line
    ensures At(ShiftAll(bps, edit), line) == None
  {
    hide MapPosition, ShiftLine;
    forall i | 0 <= i < |bps| ensures ShiftAll(bps, edit)[i].line != line {
      ShiftIsLineOfMap(bps[i].line, edit);
    }
    AtIndex(ShiftAll(bps, edit), line, |bps|);
  }

  /** After an edit to a file a line shows the first of the file's breakpoints whose line the edit carries there, or
      none; other files are left alone. */
  lemma {:induction false} EditCarriesSeen(m: Store, path: string, edit: AppliedEdit, other: string, line: nat, k: nat)
    requires OnePerLine(m) && path != ""
    ensures other != path ==> Seen(Step(m, Op.ShiftForAppliedEdit(path, edit)), other, line) == Seen(m, other, line)
    ensures FirstCarried(ListOf(m, path), edit, line, k) ==>
              Seen(Step(m, Op.ShiftForAppliedEdit(path, edit)), path, line) == Some(ListOf(m, path)[k].(line := line))
    ensures (forall i | 0 <= i < |ListOf(m, path)| ::
             MapPosition(Position(ListOf(m, path)[i].line, 0), edit).line != line)
            ==> Seen(Step(m, Op.ShiftForAppliedEdit(path, edit)), path, line) == None
  {
    hide At, ListOf, Put, Shifted, MapPosition, OnePerLine, FirstCarried, ShiftAll;
    var bps := ListOf(m, path);
    ListInOrder(m, path);
    ListAfterPut(m, path, Shifted(bps, edit), other);
    ListAfterPut(m, path, Shifted(bps, edit), path);
    ShiftLaw(bps, edit, line);
    if FirstCarried(bps, edit, line, k) {
      ShiftedFirst(bps, edit, line, k);
    }
    if forall i | 0 <= i < |bps| :: MapPosition(Position(bps[i].line, 0), edit).line != line {
      ShiftedNone(bps, edit, line);
    }
  }

  // ----- Replacing everything -----

  /** Sorting by line keeps the first breakpoint of every line first. */
  lemma {:induction false} InsertKeepsFirst(b: Breakpoint, bps: seq<Breakpoint>, line: nat)
    ensures At(Insert(b, bps, LineNotAfter), line) == At([b] + bps, line)
  {
    AtConcat([b], bps, line);
    AtSingle(b, line);
    if bps != [] && !LineNotAfter(b, bps[0]) {
      var rest := Insert(b, bps[1..], LineNotAfter);
      InsertKeepsFirst(b, bps[1..], line);
      AtConcat([b], bps[1..], line);
      AtConcat([bps[0]], rest, line);
      AtSingle(bps[0], line);
    }
  }

  lemma {:induction false} SortKeepsFirst(bps: seq<Breakpoint>, line: nat)
    ensures At(SortBy(bps, LineNotAfter), line) == At(bps, line)
  {
    if bps != [] {
      var rest := SortBy(bps[1..], LineNotAfter);
      SortKeepsFirst(bps[1..], line);
      InsertKeepsFirst(bps[0], rest, line);
      AtConcat([bps[0]], rest, line);
      AtConcat([bps[0]], bps[1..], line);
      assert bps == [bps[0]] + bps[1..];
    }
  }

  lemma {:induction false} SettledSeen(bps: seq<Breakpoint>, line: nat)
    ensures At(Settled(bps), line)
         == match At(bps, line)
            case None => None
            case Some(b) => Some(b.(verified := false, adapterId := 0, verifyMessage := ""))
  {
    if bps != [] {
      SettledSeen(bps[1..], line);
      assert Settled(bps)[1..] == Settled(bps[1..]);
    }
  }

  /** After a replacement a line shows what the file's last non-empty list had first for it, with nothing left of
      what a debugger had said. */
  lemma {:induction false} ReplacedIsSeen(m: Store, files: seq<FileBreakpoints>, path: string, line: nat)
    ensures Seen(Step(m, Op.ReplaceAll(files)), path, line)
         == match At(LastList(files, path), line)
            case None => None
            case Some(b) => Some(b.(verified := false, adapterId := 0, verifyMessage := ""))
  {
    hide SortBy, Settled, At, Replacement, LastList;
    ReplacementHolds(files, path);
    SortKeepsFirst(LastList(files, path), line);
    SettledSeen(SortBy(LastList(files, path), LineNotAfter), line);
    NoneSeen(line);
  }

  lemma {:induction false} NoneSeen(line: nat)
    ensures At([], line) == None
  {
  }
}
