/** Line and column positions in a flat text, and where an applied edit carries them. */
module EditPositions {
  datatype Position = Position(line: nat, column: nat)

  datatype Range = Range(start: Position, end: Position)

  datatype AppliedEdit = AppliedEdit(rangeBefore: Range, replacement: string)

  predicate Before(a: Position, b: Position) {
    a.line < b.line || (a.line == b.line && a.column < b.column)
  }

  function Normalized(r: Range): (n: Range)
    ensures !Before(n.end, n.start)
  {
    if Before(r.end, r.start) then Range(r.end, r.start) else r
  }

  // ----- Positions as offsets -----

  function StepOver(p: Position, c: char): Position {
    if c == '\n' then Position(p.line + 1, 0) else Position(p.line, p.column + 1)
  }

  /** `p` moved over the characters of `text`. */
  function Advance(p: Position, text: string): Position {
    if text == [] then p
    else StepOver(Advance(p, text[..|text| - 1]), text[|text| - 1])
  }

  /** The position of offset `o`. */
  function PosAt(text: string, o: nat): Position
    requires o <= |text|
  {
    Advance(Position(0, 0), text[..o])
  }

  lemma {:induction false} AdvanceOne(p: Position, text: string, c: char)
    ensures Advance(p, text + [c]) == StepOver(Advance(p, text), c)
  {
    assert (text + [c])[..|text|] == text;
  }

  lemma {:induction false} AdvanceConcat(p: Position, a: string, b: string)
    ensures Advance(p, a + b) == Advance(Advance(p, a), b)
  {
    if b == [] {
      assert a + b == a;
    } else {
      var n := |b| - 1;
      AdvanceConcat(p, a, b[..n]);
      AdvanceOne(p, a + b[..n], b[n]);
      assert a + b == (a + b[..n]) + [b[n]];
    }
  }

  lemma {:induction false} PosAtSplit(text: string, a: nat, b: nat)
    requires a <= b <= |text|
    ensures PosAt(text, b) == Advance(PosAt(text, a), text[a..b])
  {
    AdvanceConcat(Position(0, 0), text[..a], text[a..b]);
    assert text[..b] == text[..a] + text[a..b];
  }

  /** Texts that agree up to an offset agree on its position. */
  lemma {:induction false} PosAtPrefix(text: string, other: string, o: nat)
    requires o <= |text| && o <= |other| && text[..o] == other[..o]
    ensures PosAt(text, o) == PosAt(other, o)
  {
  }

  lemma {:induction false} AdvanceMovesOn(p: Position, text: string)
    ensures text != [] ==> Before(p, Advance(p, text))
  {
    if text != [] {
      AdvanceMovesOn(p, text[..|text| - 1]);
    }
  }

  /** Positions keep the order of offsets. */
  lemma {:induction false} PosAtIsMonotone(text: string, a: nat, b: nat)
    requires a <= |text| && b <= |text|
    ensures Before(PosAt(text, a), PosAt(text, b)) <==> a < b
    ensures PosAt(text, a) == PosAt(text, b) <==> a == b
  {
    if a <= b {
      PosAtSplit(text, a, b);
      AdvanceMovesOn(PosAt(text, a), text[a..b]);
    } else {
      PosAtSplit(text, b, a);
      AdvanceMovesOn(PosAt(text, b), text[b..a]);
    }
  }

  /** The same text moves every starting point alike. */
  lemma {:induction false} AdvanceFromAnywhere(p: Position, text: string)
    ensures var d := Advance(Position(0, 0), text);
            Advance(p, text) == if d.line == 0 then Position(p.line, p.column + d.column)
                                else Position(p.line + d.line, d.column)
  {
    if text != [] {
      AdvanceFromAnywhere(p, text[..|text| - 1]);
    }
  }

  // ----- Where inserted text ends -----

  function CountBreaks(text: string): nat {
    if text == [] then 0 else CountBreaks(text[..|text| - 1]) + if text[|text| - 1] == '\n' then 1 else 0
  }

  /** The index of the last line break, or -1. */
  function LastBreak(text: string): (k: int)
    ensures -1 <= k < |text|
  {
    if text == [] then -1
    else if text[|text| - 1] == '\n' then |text| - 1
    else LastBreak(text[..|text| - 1])
  }

  function InsertedEnd(edit: AppliedEdit): Position {
    var start := if Before(edit.rangeBefore.end, edit.rangeBefore.start) then edit.rangeBefore.end
        else edit.rangeBefore.start;
    var last := LastBreak(edit.replacement);
    if last == -1 then Position(start.line, start.column + |edit.replacement|)
    else Position(start.line + CountBreaks(edit.replacement), |edit.replacement| - (last + 1))
  }

  lemma {:induction false} ClosedForm(p: Position, text: string)
    ensures LastBreak(text) == -1 ==> CountBreaks(text) == 0 && Advance(p, text) == Position(p.line, p.column + |text|)
    ensures LastBreak(text) != -1 ==>
            Advance(p, text)
            == Position(p.line + CountBreaks(text), |text| - (LastBreak(text) + 1))
  {
    if text != [] {
      ClosedForm(p, text[..|text| - 1]);
    }
  }

  /** The counting closed form is the start advanced over the inserted text. */
  lemma {:induction false} InsertedEndAdvances(edit: AppliedEdit)
    ensures InsertedEnd(edit) == Advance(Normalized(edit.rangeBefore).start, edit.replacement)
  {
    ClosedForm(Normalized(edit.rangeBefore).start, edit.replacement);
  }

  // ----- Mapping a position -----

  function MapPosition(position: Position, edit: AppliedEdit): Position {
    var before := Normalized(edit.rangeBefore);
    var newEnd := InsertedEnd(edit);
    if !Before(before.start, position) then position
    else if Before(position, before.end) then newEnd
    else if position.line == before.end.line then
      Position(newEnd.line, newEnd.column + (position.column - before.end.column))
    else Position(position.line - before.end.line + newEnd.line, position.column)
  }

  /** `text` with `[s, e)` replaced. */
  function Splice(text: string, s: nat, e: nat, replacement: string): string
    requires s <= e <= |text|
  {
    text[..s] + replacement + text[e..]
  }

  /** The offset an edit carries `o` to. */
  function MapOffset(o: nat, s: nat, e: nat, inserted: nat): nat
    requires s <= e
  {
    if o <= s then o
    else if o < e then s + inserted
    else o - (e - s) + inserted
  }

  lemma {:induction false} SplicePositions(text: string, s: nat, e: nat, replacement: string)
    requires s <= e <= |text|
    ensures PosAt(Splice(text, s, e, replacement), s + |replacement|) == Advance(PosAt(text, s), replacement)
  {
    var after := Splice(text, s, e, replacement);
    assert after[..s] == text[..s];
    PosAtPrefix(text, after, s);
    PosAtSplit(after, s, s + |replacement|);
    assert after[s..s + |replacement|] == replacement;
  }

  lemma {:induction false} MapAfter(text: string, s: nat, e: nat, edit: AppliedEdit, o: nat)
    requires s <= e <= |text| && Normalized(edit.rangeBefore) == Range(PosAt(text, s), PosAt(text, e))
    requires s < o && e <= o <= |text|
    ensures MapPosition(PosAt(text, o), edit)
         == PosAt(Splice(text, s, e, edit.replacement), o - (e - s) + |edit.replacement|)
  {
    hide Advance;
    var after := Splice(text, s, e, edit.replacement);
    var newEnd := s + |edit.replacement|;
    var to := o - (e - s) + |edit.replacement|;
    SplicePositions(text, s, e, edit.replacement);
    InsertedEndAdvances(edit);
    PosAtSplit(text, e, o);
    PosAtSplit(after, newEnd, to);
    assert after[newEnd..to] == text[e..o];
    AdvanceFromAnywhere(PosAt(text, e), text[e..o]);
    AdvanceFromAnywhere(PosAt(after, newEnd), text[e..o]);
    PosAtIsMonotone(text, s, o);
    PosAtIsMonotone(text, o, e);
  }

  /** Mapping positions commutes with splicing the flat text. */
  lemma {:induction false} MapCommutesWithSplice(text: string, s: nat, e: nat, edit: AppliedEdit, o: nat)
    requires s <= e <= |text| && Normalized(edit.rangeBefore) == Range(PosAt(text, s), PosAt(text, e))
    requires o <= |text|
    ensures var after := Splice(text, s, e, edit.replacement);
            var to := MapOffset(o, s, e, |edit.replacement|);
            to <= |after| && MapPosition(PosAt(text, o), edit) == PosAt(after, to)
  {
    var after := Splice(text, s, e, edit.replacement);
    PosAtIsMonotone(text, s, o);
    PosAtIsMonotone(text, o, e);
    if o <= s {
      assert after[..o] == text[..o];
      PosAtPrefix(text, after, o);
    } else if o < e {
      SplicePositions(text, s, e, edit.replacement);
      InsertedEndAdvances(edit);
    } else {
      MapAfter(text, s, e, edit, o);
    }
  }

  /** An offset outside what is replaced keeps the character after it and one right after it the character before;
      one inside goes to the end of what is inserted. */
  lemma {:induction false} OffsetKeepsNeighbour(text: string, s: nat, e: nat, replacement: string, o: nat)
    requires s <= e <= |text| && o <= |text|
    ensures var after, to := Splice(text, s, e, replacement), MapOffset(o, s, e, |replacement|);
            && to <= |after|
            && (o < s || (s < o && e <= o < |text|) ==> to < |after| && after[to] == text[o])
            && (0 < o <= s || e < o ==> 0 < to && after[to - 1] == text[o - 1])
            && (s < o < e ==> after[..to] == text[..s] + replacement && after[to..] == text[e..])
  {
  }

  lemma {:induction false} InsertedEndNotBefore(edit: AppliedEdit)
    ensures !Before(InsertedEnd(edit), Normalized(edit.rangeBefore).start)
  {
    InsertedEndAdvances(edit);
    AdvanceMovesOn(Normalized(edit.rangeBefore).start, edit.replacement);
  }

  /** No two positions, of any text or none, change order. */
  lemma {:induction false} MapIsMonotone(p: Position, q: Position, edit: AppliedEdit)
    requires !Before(q, p)
    ensures !Before(MapPosition(q, edit), MapPosition(p, edit))
  {
    InsertedEndNotBefore(edit);
  }
}
