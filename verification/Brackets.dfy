/** Bracket matching: a scan forward from an opener and a scan backward from a closer, under one line
    limit and one byte budget, are inverses of each other. */
module Brackets {
  import opened Basics

  const MAX_BRACKET_MATCH_SCAN_BYTES := 512 * 1024
  const MAX_HIGHLIGHT_LINE_BYTES := 100000

  /** Absolute line numbers over a slice of the buffer that starts at line `base`. */
  datatype Window = Window(slice: seq<string>, base: nat)

  /** The text, and for each line the columns inside a string or comment. */
  datatype Source = Source(lines: Window, suppressed: seq<seq<bool>>)

  datatype Place = Place(line: nat, column: nat)

  datatype MatchPair = MatchPair(open: Place, close: Place, caretAtOpener: bool)

  predicate IsOpener(c: char) { c == '{' || c == '(' || c == '[' }

  predicate IsCloser(c: char) { c == '}' || c == ')' || c == ']' }

  function Opposite(c: char): char {
    match c
    case '{' => '}'
    case '}' => '{'
    case '(' => ')'
    case ')' => '('
    case '[' => ']'
    case ']' => '['
    case _ => '\0'
  }

  function Size(w: Window): nat { w.base + |w.slice| }

  function LineAt(s: Source, line: nat): string {
    if s.lines.base <= line < Size(s.lines) then s.lines.slice[line - s.lines.base] else ""
  }

  predicate SuppressedAt(s: Source, line: nat, column: nat) {
    line < |s.suppressed| && column < |s.suppressed[line]| && s.suppressed[line][column]
  }

  /** What a character adds to the depth: 1 for the opener, -1 for the closer, 0 for the rest and for
      what is suppressed. */
  function Value(s: Source, open: char, close: char, line: nat, column: nat): (v: int)
    requires column < |LineAt(s, line)|
    ensures -1 <= v <= 1
  {
    if SuppressedAt(s, line, column) then 0
    else if LineAt(s, line)[column] == open then 1
    else if LineAt(s, line)[column] == close then -1
    else 0
  }

  // ----- The scans -----

  function Forward(s: Source, open: char, close: char, line: nat, column: nat, endLine: nat, depth: int,
                   budget: nat): Option<Place>
    decreases Monus(endLine, line), Monus(|LineAt(s, line)|, column)
  {
    if line >= endLine then None
    else if column >= |LineAt(s, line)| then Forward(s, open, close, line + 1, 0, endLine, depth, budget)
    else if budget == 0 then None
    else
      var v := Value(s, open, close, line, column);
      if v == -1 && depth == 1 then Some(Place(line, column))
      else Forward(s, open, close, line, column + 1, endLine, depth + v, budget - 1)
  }

  function Backward(s: Source, open: char, close: char, line: nat, column: nat, bottom: nat, depth: int,
                    budget: nat): Option<Place>
    requires column <= |LineAt(s, line)|
    decreases line, column
  {
    if column > 0 then
      if budget == 0 then None
      else
        var v := Value(s, open, close, line, column - 1);
        if v == 1 && depth == 1 then Some(Place(line, column - 1))
        else Backward(s, open, close, line, column - 1, bottom, depth - v, budget - 1)
    else if line > bottom then Backward(s, open, close, line - 1, |LineAt(s, line - 1)|, bottom, depth, budget)
    else None
  }

  /** The closer matching the opener at a place. */
  function MatchForward(s: Source, at: Place, maxLines: nat): Option<Place>
    requires at.column < |LineAt(s, at.line)|
  {
    var open := LineAt(s, at.line)[at.column];
    Forward(s, open, Opposite(open), at.line, at.column + 1, Min(at.line + maxLines, Size(s.lines)), 1,
            MAX_BRACKET_MATCH_SCAN_BYTES)
  }

  /** The opener matching the closer at a place. */
  function MatchBackward(s: Source, at: Place, maxLines: nat): Option<Place>
    requires at.column < |LineAt(s, at.line)|
  {
    var close := LineAt(s, at.line)[at.column];
    Backward(s, Opposite(close), close, at.line, at.column, Monus(at.line, maxLines), 1, MAX_BRACKET_MATCH_SCAN_BYTES)
  }

  // ----- Depth and distance -----

  /** The depth added by all characters before a place. */
  ghost function DepthBefore(s: Source, open: char, close: char, line: nat, column: nat): int
    requires column <= |LineAt(s, line)|
    decreases line, column
  {
    if column > 0 then DepthBefore(s, open, close, line, column - 1) + Value(s, open, close, line, column - 1)
    else if line > 0 then DepthBefore(s, open, close, line - 1, |LineAt(s, line - 1)|)
    else 0
  }

  ghost function BytesBefore(s: Source, line: nat): nat {
    if line == 0 then 0 else BytesBefore(s, line - 1) + |LineAt(s, line - 1)|
  }

  ghost function Index(s: Source, line: nat, column: nat): nat {
    BytesBefore(s, line) + column
  }

  predicate NotAfter(a: Place, b: Place) {
    a.line < b.line || (a.line == b.line && a.column <= b.column)
  }

  /** A place between two others, counting the end of a line. */
  predicate Between(s: Source, a: Place, p: Place, b: Place) {
    p.column <= |LineAt(s, p.line)| && NotAfter(a, p) && NotAfter(p, b)
  }

  /** `p` is the first place from `from` on where the depth comes down to nothing. */
  ghost predicate ClosesFirst(s: Source, open: char, close: char, from: Place, p: Place, depth: int)
    requires from.column <= |LineAt(s, from.line)| && p.column < |LineAt(s, p.line)|
  {
    && NotAfter(from, p)
    && depth + DepthBefore(s, open, close, p.line, p.column + 1)
        - DepthBefore(s, open, close, from.line, from.column) == 0
    && forall k | Between(s, from, k, p) ::
         depth + DepthBefore(s, open, close, k.line, k.column) - DepthBefore(s, open, close, from.line, from.column) > 0
  }

  /** `p` is the first place before `from`, going back, where the depth comes down to nothing. */
  ghost predicate OpensFirst(s: Source, open: char, close: char, from: Place, p: Place, depth: int)
    requires from.column <= |LineAt(s, from.line)| && p.column < |LineAt(s, p.line)|
  {
    && NotAfter(Place(p.line, p.column + 1), from)
    && depth - (DepthBefore(s, open, close, from.line, from.column) - DepthBefore(s, open, close, p.line, p.column))
        == 0
    && forall k | Between(s, Place(p.line, p.column + 1), k, from) ::
         depth - (DepthBefore(s, open, close, from.line, from.column)
                  - DepthBefore(s, open, close, k.line, k.column)) > 0
  }

  /** The end of a line is where the next begins. */
  lemma {:induction false} LineBreak(s: Source, open: char, close: char, line: nat)
    ensures DepthBefore(s, open, close, line + 1, 0) == DepthBefore(s, open, close, line, |LineAt(s, line)|)
    ensures Index(s, line + 1, 0) == Index(s, line, |LineAt(s, line)|)
  {
  }

  // ----- The forward scan, described -----

  ghost predicate InReach(s: Source, p: Place, endLine: nat) {
    p.line < endLine && p.column < |LineAt(s, p.line)|
  }

  lemma {:induction false} ForwardFinds(s: Source, open: char, close: char, line: nat, column: nat, endLine: nat,
                                        depth: int, budget: nat)
    requires column <= |LineAt(s, line)| && depth > 0
             && Forward(s, open, close, line, column, endLine, depth, budget).Some?
    ensures var p := Forward(s, open, close, line, column, endLine, depth, budget).value;
            && InReach(s, p, endLine)
            && ClosesFirst(s, open, close, Place(line, column), p, depth)
            && Index(s, p.line, p.column) - Index(s, line, column) < budget
            && Value(s, open, close, p.line, p.column) == -1
    decreases Monus(endLine, line), Monus(|LineAt(s, line)|, column)
  {
    hide LineAt, Size, Value;
    var from := Place(line, column);
    var p := Forward(s, open, close, line, column, endLine, depth, budget).value;
    if column == |LineAt(s, line)| {
      LineBreak(s, open, close, line);
      ForwardFinds(s, open, close, line + 1, 0, endLine, depth, budget);
      forall k | Between(s, from, k, p)
        ensures depth + DepthBefore(s, open, close, k.line, k.column) - DepthBefore(s, open, close, line, column) > 0 {
        assert k == from || Between(s, Place(line + 1, 0), k, p);
      }
    } else {
      var v := Value(s, open, close, line, column);
      if v == -1 && depth == 1 {
        forall k | Between(s, from, k, p)
          ensures depth + DepthBefore(s, open, close, k.line, k.column) - DepthBefore(s, open, close, line, column)
                  > 0 {
          assert k == from;
        }
      } else {
        ForwardFinds(s, open, close, line, column + 1, endLine, depth + v, budget - 1);
        forall k | Between(s, from, k, p)
          ensures depth + DepthBefore(s, open, close, k.line, k.column) - DepthBefore(s, open, close, line, column)
                  > 0 {
          assert k == from || Between(s, Place(line, column + 1), k, p);
        }
      }
    }
  }

  /** A place that closes first, in reach of the lines and the budget, is what the scan finds. */
  lemma {:induction false} ForwardReaches(s: Source, open: char, close: char, line: nat, column: nat, endLine: nat,
                                          depth: int, budget: nat, p: Place)
    requires column <= |LineAt(s, line)| && depth > 0 && InReach(s, p, endLine)
    requires ClosesFirst(s, open, close, Place(line, column), p, depth)
    requires Index(s, p.line, p.column) - Index(s, line, column) < budget
    ensures Forward(s, open, close, line, column, endLine, depth, budget) == Some(p)
    decreases Monus(endLine, line), Monus(|LineAt(s, line)|, column)
  {
    var from := Place(line, column);
    IndexOrder(s, from, p);
    if column == |LineAt(s, line)| {
      LineBreak(s, open, close, line);
      assert p.line > line;
      forall k | Between(s, Place(line + 1, 0), k, p)
        ensures depth + DepthBefore(s, open, close, k.line, k.column) - DepthBefore(s, open, close, line + 1, 0) > 0 {
        assert Between(s, from, k, p);
      }
      ForwardReaches(s, open, close, line + 1, 0, endLine, depth, budget, p);
    } else {
      var v := Value(s, open, close, line, column);
      var next := Place(line, column + 1);
      if p == from {
        assert Between(s, from, from, p);
      } else {
        assert Between(s, from, next, p);
        forall k | Between(s, next, k, p)
          ensures depth + v + DepthBefore(s, open, close, k.line, k.column)
                  - DepthBefore(s, open, close, line, column + 1) > 0 {
          assert Between(s, from, k, p);
        }
        ForwardReaches(s, open, close, line, column + 1, endLine, depth + v, budget - 1, p);
      }
    }
  }

  lemma {:induction false} BytesGrow(s: Source, a: nat, b: nat)
    requires a <= b
    ensures BytesBefore(s, a) <= BytesBefore(s, b)
    ensures a < b ==> BytesBefore(s, a) + |LineAt(s, a)| <= BytesBefore(s, b)
    decreases b
  {
    if a < b {
      BytesGrow(s, a, b - 1);
    }
  }

  lemma {:induction false} IndexOrder(s: Source, a: Place, b: Place)
    requires NotAfter(a, b) && a.column <= |LineAt(s, a.line)|
    ensures Index(s, a.line, a.column) <= Index(s, b.line, b.column)
  {
    BytesGrow(s, a.line, b.line);
  }

  // ----- The backward scan, described -----

  lemma {:induction false} BackwardFinds(s: Source, open: char, close: char, line: nat, column: nat, bottom: nat,
                                         depth: int, budget: nat)
    requires column <= |LineAt(s, line)| && depth > 0
             && Backward(s, open, close, line, column, bottom, depth, budget).Some?
    ensures var p := Backward(s, open, close, line, column, bottom, depth, budget).value;
            && Min(bottom, line) <= p.line <= line && p.column < |LineAt(s, p.line)|
            && OpensFirst(s, open, close, Place(line, column), p, depth)
            && Index(s, line, column) - Index(s, p.line, p.column) <= budget
            && Value(s, open, close, p.line, p.column) == 1
    decreases line, column
  {
    hide LineAt, Size, Value;
    var from := Place(line, column);
    var p := Backward(s, open, close, line, column, bottom, depth, budget).value;
    if column > 0 {
      var v := Value(s, open, close, line, column - 1);
      if v == 1 && depth == 1 {
        forall k | Between(s, Place(p.line, p.column + 1), k, from)
          ensures depth - (DepthBefore(s, open, close, line, column) - DepthBefore(s, open, close, k.line, k.column))
                  > 0 {
          assert k == from;
        }
      } else {
        BackwardFinds(s, open, close, line, column - 1, bottom, depth - v, budget - 1);
        forall k | Between(s, Place(p.line, p.column + 1), k, from)
          ensures depth - (DepthBefore(s, open, close, line, column) - DepthBefore(s, open, close, k.line, k.column))
                  > 0 {
          assert k == from || Between(s, Place(p.line, p.column + 1), k, Place(line, column - 1));
        }
      }
    } else {
      LineBreak(s, open, close, line - 1);
      var before := Place(line - 1, |LineAt(s, line - 1)|);
      BackwardFinds(s, open, close, before.line, before.column, bottom, depth, budget);
      forall k | Between(s, Place(p.line, p.column + 1), k, from)
        ensures depth - (DepthBefore(s, open, close, line, column) - DepthBefore(s, open, close, k.line, k.column))
                > 0 {
        assert k == from || Between(s, Place(p.line, p.column + 1), k, before);
      }
    }
  }

  lemma {:induction false} BackwardReaches(s: Source, open: char, close: char, line: nat, column: nat, bottom: nat,
                                           depth: int, budget: nat, p: Place)
    requires column <= |LineAt(s, line)| && depth > 0 && (bottom <= p.line || p.line == line)
             && p.column < |LineAt(s, p.line)|
    requires OpensFirst(s, open, close, Place(line, column), p, depth)
    requires Index(s, line, column) - Index(s, p.line, p.column) <= budget
    ensures Backward(s, open, close, line, column, bottom, depth, budget) == Some(p)
    decreases line, column
  {
    var from := Place(line, column);
    var after := Place(p.line, p.column + 1);
    IndexOrder(s, after, from);
    if column > 0 {
      var v := Value(s, open, close, line, column - 1);
      var next := Place(line, column - 1);
      if p == next {
        assert Between(s, after, from, from);
      } else {
        assert NotAfter(after, next);
        assert Between(s, after, next, from);
        forall k | Between(s, after, k, next)
          ensures depth - v - (DepthBefore(s, open, close, line, column - 1)
                               - DepthBefore(s, open, close, k.line, k.column)) > 0 {
          assert Between(s, after, k, from);
        }
        BackwardReaches(s, open, close, line, column - 1, bottom, depth - v, budget - 1, p);
      }
    } else {
      LineBreak(s, open, close, line - 1);
      var before := Place(line - 1, |LineAt(s, line - 1)|);
      forall k | Between(s, after, k, before)
        ensures depth - (DepthBefore(s, open, close, before.line, before.column)
                         - DepthBefore(s, open, close, k.line, k.column)) > 0 {
        assert Between(s, after, k, from);
      }
      BackwardReaches(s, open, close, before.line, before.column, bottom, depth, budget, p);
    }
  }

  // ----- The scans are inverse -----

  lemma {:induction false} OppositeIsInvolution(c: char)
    requires IsOpener(c) || IsCloser(c)
    ensures Opposite(Opposite(c)) == c && Opposite(c) != c
  {
  }

  /** Closing first after the opener is opening first before the closer. */
  lemma {:induction false} ClosesIffOpens(s: Source, open: char, close: char, o: Place, c: Place)
    requires o.column < |LineAt(s, o.line)| && c.column < |LineAt(s, c.line)|
             && NotAfter(Place(o.line, o.column + 1), c)
    requires Value(s, open, close, o.line, o.column) == 1 && Value(s, open, close, c.line, c.column) == -1
    ensures ClosesFirst(s, open, close, Place(o.line, o.column + 1), c, 1) <==> OpensFirst(s, open, close, c, o, 1)
  {
    var from := Place(o.line, o.column + 1);
    assert DepthBefore(s, open, close, o.line, o.column + 1) == DepthBefore(s, open, close, o.line, o.column) + 1;
    assert DepthBefore(s, open, close, c.line, c.column + 1) == DepthBefore(s, open, close, c.line, c.column) - 1;
    if ClosesFirst(s, open, close, from, c, 1) {
      forall k | Between(s, from, k, c)
        ensures 1 - (DepthBefore(s, open, close, c.line, c.column) - DepthBefore(s, open, close, k.line, k.column))
                > 0 {
        assert 1 + DepthBefore(s, open, close, k.line, k.column)
            - DepthBefore(s, open, close, from.line, from.column) > 0;
      }
    }
    if OpensFirst(s, open, close, c, o, 1) {
      forall k | Between(s, from, k, c)
        ensures 1 + DepthBefore(s, open, close, k.line, k.column)
                - DepthBefore(s, open, close, from.line, from.column) > 0 {
        assert 1 - (DepthBefore(s, open, close, c.line, c.column) - DepthBefore(s, open, close, k.line, k.column)) > 0;
      }
    }
  }

  predicate OpenerAt(s: Source, p: Place) {
    p.column < |LineAt(s, p.line)| && IsOpener(LineAt(s, p.line)[p.column]) && !SuppressedAt(s, p.line, p.column)
  }

  predicate CloserAt(s: Source, p: Place) {
    p.column < |LineAt(s, p.line)| && IsCloser(LineAt(s, p.line)[p.column]) && !SuppressedAt(s, p.line, p.column)
  }

  lemma {:induction false} LineInSource(s: Source, p: Place)
    requires p.column < |LineAt(s, p.line)|
    ensures p.line < Size(s.lines)
  {
  }

  /** A closer found from an unsuppressed opener leads back to that opener, under the same limits. */
  lemma {:induction false} ForwardThenBackward(s: Source, o: Place, maxLines: nat)
    requires OpenerAt(s, o) && MatchForward(s, o, maxLines).Some?
    ensures var c := MatchForward(s, o, maxLines).value;
            CloserAt(s, c) && c.line - o.line < maxLines && MatchBackward(s, c, maxLines) == Some(o)
  {
    var open := LineAt(s, o.line)[o.column];
    var close := Opposite(open);
    var endLine := Min(o.line + maxLines, Size(s.lines));
    OppositeIsInvolution(open);
    ForwardFinds(s, open, close, o.line, o.column + 1, endLine, 1, MAX_BRACKET_MATCH_SCAN_BYTES);
    var c := MatchForward(s, o, maxLines).value;
    ClosesIffOpens(s, open, close, o, c);
    BackwardReaches(s, open, close, c.line, c.column, Monus(c.line, maxLines), 1, MAX_BRACKET_MATCH_SCAN_BYTES, o);
  }

  /** An opener found from an unsuppressed closer leads forward to that closer exactly when the two lines
      are less than the limit apart: the backward scan reaches one line further. */
  lemma {:induction false} BackwardThenForward(s: Source, c: Place, maxLines: nat)
    requires CloserAt(s, c) && MatchBackward(s, c, maxLines).Some?
    ensures var o := MatchBackward(s, c, maxLines).value;
            && OpenerAt(s, o) && o.line <= c.line <= o.line + maxLines
            && (MatchForward(s, o, maxLines) == Some(c) <==> c.line - o.line < maxLines)
  {
    var close := LineAt(s, c.line)[c.column];
    var open := Opposite(close);
    OppositeIsInvolution(close);
    BackwardFinds(s, open, close, c.line, c.column, Monus(c.line, maxLines), 1, MAX_BRACKET_MATCH_SCAN_BYTES);
    var o := MatchBackward(s, c, maxLines).value;
    assert LineAt(s, o.line)[o.column] == open;
    LineInSource(s, c);
    if c.line - o.line < maxLines {
      ClosesIffOpens(s, open, close, o, c);
      ForwardReaches(s, open, close, o.line, o.column + 1, Min(o.line + maxLines, Size(s.lines)), 1,
                     MAX_BRACKET_MATCH_SCAN_BYTES, c);
    } else if MatchForward(s, o, maxLines) == Some(c) {
      ForwardFinds(s, open, close, o.line, o.column + 1, Min(o.line + maxLines, Size(s.lines)), 1,
                   MAX_BRACKET_MATCH_SCAN_BYTES);
    }
  }

  // ----- The caret -----

  function TryAt(s: Source, line: nat, column: nat, maxLines: nat): Option<MatchPair> {
    if column >= |LineAt(s, line)| || SuppressedAt(s, line, column) then None
    else if IsOpener(LineAt(s, line)[column]) then
      match MatchForward(s, Place(line, column), maxLines)
      case Some(close) => Some(MatchPair(Place(line, column), close, true))
      case None => None
    else if IsCloser(LineAt(s, line)[column]) then
      match MatchBackward(s, Place(line, column), maxLines)
      case Some(open) => Some(MatchPair(open, Place(line, column), false))
      case None => None
    else None
  }

  function MatchInWindow(s: Source, caret: Place, maxLines: nat): Option<MatchPair> {
    if caret.line >= Size(s.lines) then None
    else
      var here := TryAt(s, caret.line, caret.column, maxLines);
      if here.Some? then here
      else if caret.column > 0 then TryAt(s, caret.line, caret.column - 1, maxLines)
      else None
  }

  // ----- The window is enough -----

  lemma {:induction false} ForwardSame(s: Source, t: Source, open: char, close: char, line: nat, column: nat,
                                       endLine: nat, depth: int, budget: nat)
    requires s.suppressed == t.suppressed && forall l: nat | line <= l < endLine :: LineAt(s, l) == LineAt(t, l)
    ensures Forward(s, open, close, line, column, endLine, depth, budget)
            == Forward(t, open, close, line, column, endLine, depth, budget)
    decreases Monus(endLine, line), Monus(|LineAt(s, line)|, column)
  {
    if line < endLine {
      if column >= |LineAt(s, line)| {
        ForwardSame(s, t, open, close, line + 1, 0, endLine, depth, budget);
      } else if budget > 0 {
        assert Value(s, open, close, line, column) == Value(t, open, close, line, column);
        ForwardSame(s, t, open, close, line, column + 1, endLine, depth + Value(s, open, close, line, column),
                    budget - 1);
      }
    }
  }

  lemma {:induction false} BackwardSame(s: Source, t: Source, open: char, close: char, line: nat, column: nat,
                                        bottom: nat, depth: int, budget: nat)
    requires s.suppressed == t.suppressed && forall l: nat | Min(bottom, line) <= l <= line ::
             LineAt(s, l) == LineAt(t, l)
    requires column <= |LineAt(s, line)|
    ensures LineAt(s, line) == LineAt(t, line)
    ensures Backward(s, open, close, line, column, bottom, depth, budget)
            == Backward(t, open, close, line, column, bottom, depth, budget)
    decreases line, column
  {
    assert LineAt(s, line) == LineAt(t, line);
    if column > 0 {
      if budget > 0 {
        assert Value(s, open, close, line, column - 1) == Value(t, open, close, line, column - 1);
        BackwardSame(s, t, open, close, line, column - 1, bottom, depth - Value(s, open, close, line, column - 1),
                     budget - 1);
      }
    } else if line > bottom {
      BackwardSame(s, t, open, close, line - 1, |LineAt(s, line - 1)|, bottom, depth, budget);
    }
  }

  /** The slice of lines around the caret that the scan may need. */
  function WindowAround(lines: seq<string>, caretLine: nat, maxLines: nat): Window
    requires caretLine < |lines|
  {
    var lo := Monus(caretLine, maxLines);
    Window(lines[lo..Min(|lines|, caretLine + maxLines + 1)], lo)
  }

  lemma {:induction false} WindowLine(lines: seq<string>, suppressed: seq<seq<bool>>, caretLine: nat, maxLines: nat,
                                      l: nat)
    requires caretLine < |lines| && Monus(caretLine, maxLines) <= l < caretLine + maxLines + 1
    ensures LineAt(Source(WindowAround(lines, caretLine, maxLines), suppressed), l)
            == LineAt(Source(Window(lines, 0), suppressed), l)
  {
  }

  lemma {:induction false} TryAtSame(lines: seq<string>, suppressed: seq<seq<bool>>, caretLine: nat, maxLines: nat,
                                     column: nat)
    requires caretLine < |lines|
    ensures TryAt(Source(WindowAround(lines, caretLine, maxLines), suppressed), caretLine, column, maxLines)
         == TryAt(Source(Window(lines, 0), suppressed), caretLine, column, maxLines)
  {
    var s, t := Source(WindowAround(lines, caretLine, maxLines), suppressed), Source(Window(lines, 0), suppressed);
    forall l: nat | Monus(caretLine, maxLines) <= l < caretLine + maxLines + 1 ensures LineAt(s, l) == LineAt(t, l) {
      WindowLine(lines, suppressed, caretLine, maxLines, l);
    }
    if column < |LineAt(s, caretLine)| {
      var ch := LineAt(s, caretLine)[column];
      assert Min(caretLine + maxLines, Size(s.lines)) == Min(caretLine + maxLines, Size(t.lines));
      ForwardSame(s, t, ch, Opposite(ch), caretLine, column + 1, Min(caretLine + maxLines, Size(t.lines)), 1,
                  MAX_BRACKET_MATCH_SCAN_BYTES);
      BackwardSame(s, t, Opposite(ch), ch, caretLine, column, Monus(caretLine, maxLines), 1,
                   MAX_BRACKET_MATCH_SCAN_BYTES);
    }
  }

  /** Scanning the bounded window gives the same pair as scanning all lines. */
  lemma {:induction false} WindowIsEnough(lines: seq<string>, suppressed: seq<seq<bool>>, caret: Place, maxLines: nat)
    requires caret.line < |lines|
    ensures MatchInWindow(Source(WindowAround(lines, caret.line, maxLines), suppressed), caret, maxLines)
         == MatchInWindow(Source(Window(lines, 0), suppressed), caret, maxLines)
  {
    TryAtSame(lines, suppressed, caret.line, maxLines, caret.column);
    if caret.column > 0 {
      TryAtSame(lines, suppressed, caret.line, maxLines, caret.column - 1);
    }
  }

  // ----- The methods -----

  method MatchForwardFromOpener(s: Source, at: Place, maxLines: nat) returns (found: Option<Place>)
    requires at.column < |LineAt(s, at.line)|
    ensures found == MatchForward(s, at, maxLines)
  {
    var openCh := LineAt(s, at.line)[at.column];
    var closeCh := Opposite(openCh);
    var depth := 1;
    var endLine := at.line + maxLines;
    if endLine > Size(s.lines) {
      endLine := Size(s.lines);
    }
    var line: nat, column: nat, budget: nat := at.line, at.column + 1, MAX_BRACKET_MATCH_SCAN_BYTES;
    while line < endLine
      invariant Forward(s, openCh, closeCh, line, column, endLine, depth, budget) == MatchForward(s, at, maxLines)
      decreases endLine - line
    {
      var text := LineAt(s, line);
      while column < |text|
        invariant Forward(s, openCh, closeCh, line, column, endLine, depth, budget) == MatchForward(s, at, maxLines)
        decreases |text| - column
      {
        if budget == 0 {
          return None;
        }
        budget := budget - 1;
        if SuppressedAt(s, line, column) {
          column := column + 1;
          continue;
        }
        var c := text[column];
        if c == openCh {
          depth := depth + 1;
        } else if c == closeCh {
          depth := depth - 1;
          if depth == 0 {
            return Some(Place(line, column));
          }
        }
        column := column + 1;
      }
      line, column := line + 1, 0;
    }
    found := None;
  }

  /** One line of the backward scan, from `column` to its start. */
  method ScanLineBackward(s: Source, openCh: char, closeCh: char, line: nat, from: nat, ghost bottom: nat,
                          depth0: int, budget0: nat)
    returns (done: bool, found: Option<Place>, depth: int, budget: nat)
    requires from <= |LineAt(s, line)|
    ensures done ==> found == Backward(s, openCh, closeCh, line, from, bottom, depth0, budget0)
    ensures !done ==>
            Backward(s, openCh, closeCh, line, 0, bottom, depth, budget)
            == Backward(s, openCh, closeCh, line, from, bottom, depth0, budget0)
  {
    depth, budget := depth0, budget0;
    var column: nat := from;
    var text := LineAt(s, line);
    while column > 0
      invariant column <= from
      invariant Backward(s, openCh, closeCh, line, column, bottom, depth, budget)
                == Backward(s, openCh, closeCh, line, from, bottom, depth0, budget0)
    {
      if budget == 0 {
        return true, None, depth, budget;
      }
      budget := budget - 1;
      column := column - 1;
      if SuppressedAt(s, line, column) {
        continue;
      }
      if text[column] == openCh {
        if depth == 1 {
          return true, Some(Place(line, column)), depth, budget;
        }
        depth := depth - 1;
      } else if text[column] == closeCh {
        depth := depth + 1;
      }
    }
    done, found := false, None;
  }

  method MatchBackwardFromCloser(s: Source, at: Place, maxLines: nat) returns (found: Option<Place>)
    requires at.column < |LineAt(s, at.line)|
    ensures found == MatchBackward(s, at, maxLines)
  {
    var closeCh := LineAt(s, at.line)[at.column];
    var openCh := Opposite(closeCh);
    var bottom := if at.line >= maxLines then at.line - maxLines else 0;
    var done, place, depth, budget := ScanLineBackward(s, openCh, closeCh, at.line, at.column, bottom, 1,
                                                       MAX_BRACKET_MATCH_SCAN_BYTES);
    if done {
      return place;
    }
    var line := at.line;
    while line > bottom
      invariant bottom <= line
      invariant Backward(s, openCh, closeCh, line, 0, bottom, depth, budget) == MatchBackward(s, at, maxLines)
    {
      line := line - 1;
      done, place, depth, budget := ScanLineBackward(s, openCh, closeCh, line, |LineAt(s, line)|, bottom, depth,
                                                     budget);
      if done {
        return place;
      }
    }
    found := None;
  }

  method ProbeAt(s: Source, line: nat, column: nat, maxLines: nat) returns (pair: Option<MatchPair>)
    ensures pair == TryAt(s, line, column, maxLines)
  {
    pair := None;
    if column < |LineAt(s, line)| && !SuppressedAt(s, line, column) {
      var c := LineAt(s, line)[column];
      if IsOpener(c) {
        var close := MatchForwardFromOpener(s, Place(line, column), maxLines);
        if close.Some? {
          pair := Some(MatchPair(Place(line, column), close.value, true));
        }
      } else if IsCloser(c) {
        var open := MatchBackwardFromCloser(s, Place(line, column), maxLines);
        if open.Some? {
          pair := Some(MatchPair(open.value, Place(line, column), false));
        }
      }
    }
  }

  method FindBracketMatchInWindow(s: Source, caret: Place, maxLines: nat) returns (pair: Option<MatchPair>)
    ensures pair == MatchInWindow(s, caret, maxLines)
  {
    if caret.line >= Size(s.lines) {
      return None;
    }
    pair := ProbeAt(s, caret.line, caret.column, maxLines);
    if pair.None? && caret.column > 0 {
      pair := ProbeAt(s, caret.line, caret.column - 1, maxLines);
    }
  }

  /** Only the window is materialized; a caret line too long to be tokenized matches nothing. */
  method FindBracketMatch(lines: seq<string>, suppressed: seq<seq<bool>>, caret: Place, maxLines: nat)
      returns (pair: Option<MatchPair>)
    ensures caret.line < |lines| && |lines[caret.line]| <= MAX_HIGHLIGHT_LINE_BYTES
            ==> pair == MatchInWindow(Source(Window(lines, 0), suppressed), caret, maxLines)
    ensures caret.line >= |lines| || |lines[caret.line]| > MAX_HIGHLIGHT_LINE_BYTES ==> pair == None
  {
    if caret.line >= |lines| || |lines[caret.line]| > MAX_HIGHLIGHT_LINE_BYTES {
      return None;
    }
    var lo := if caret.line > maxLines then caret.line - maxLines else 0;
    var hi := Min(|lines|, caret.line + maxLines + 1);
    var window: seq<string> := [];
    var i := lo;
    while i < hi
      invariant lo <= i <= hi && window == lines[lo..i]
    {
      window := window + [lines[i]];
      i := i + 1;
    }
    WindowIsEnough(lines, suppressed, caret, maxLines);
    pair := FindBracketMatchInWindow(Source(Window(window, lo), suppressed), caret, maxLines);
  }
}
