/** What bracket matching finds: the first place where the nesting that a bracket opens is closed, if the lines and
    bytes allowed reach it, and for a caret the match of the bracket beside it. */
module BracketLaws {
  import opened Basics
  import opened Brackets

  /** The closer `c` ends the nesting the opener `o` begins: between them it never ends before. */
  ghost predicate Closes(s: Source, o: Place, c: Place) {
    && OpenerAt(s, o) && c.column < |LineAt(s, c.line)|
    && ClosesFirst(s, LineAt(s, o.line)[o.column], Opposite(LineAt(s, o.line)[o.column]),
                   Place(o.line, o.column + 1), c, 1)
  }

  /** The opener `o` begins the nesting the closer `c` ends: between them it never begins after. */
  ghost predicate Opens(s: Source, c: Place, o: Place) {
    && CloserAt(s, c) && o.column < |LineAt(s, o.line)|
    && OpensFirst(s, Opposite(LineAt(s, c.line)[c.column]), LineAt(s, c.line)[c.column], c, o, 1)
  }

  /** Bytes from `p` up to `q`. */
  ghost function Distance(s: Source, p: Place, q: Place): int {
    Index(s, q.line, q.column) - Index(s, p.line, p.column)
  }

  /** The forward scan finds a place exactly when the opener's nesting closes there, on one of the lines allowed and
      within the byte budget. */
  lemma {:induction false} ForwardIff(s: Source, o: Place, maxLines: nat, c: Place)
    requires OpenerAt(s, o)
    ensures MatchForward(s, o, maxLines) == Some(c)
       <==> Closes(s, o, c) && c.line < o.line + maxLines && Distance(s, o, c) <= 524288
  {
    var open := LineAt(s, o.line)[o.column];
    var endLine := Min(o.line + maxLines, Size(s.lines));
    hide LineAt, Opposite;
    if MatchForward(s, o, maxLines) == Some(c) {
      ForwardFinds(s, open, Opposite(open), o.line, o.column + 1, endLine, 1, MAX_BRACKET_MATCH_SCAN_BYTES);
    } else if Closes(s, o, c) && c.line < o.line + maxLines && Distance(s, o, c) <= 524288 {
      LineInSource(s, c);
      ForwardReaches(s, open, Opposite(open), o.line, o.column + 1, endLine, 1, MAX_BRACKET_MATCH_SCAN_BYTES, c);
    }
  }

  /** The backward scan reaches one line further. */
  lemma {:induction false} BackwardIff(s: Source, c: Place, maxLines: nat, o: Place)
    requires CloserAt(s, c)
    ensures MatchBackward(s, c, maxLines) == Some(o)
       <==> Opens(s, c, o) && c.line <= o.line + maxLines && Distance(s, o, c) <= 524288
  {
    var close := LineAt(s, c.line)[c.column];
    var bottom := Monus(c.line, maxLines);
    hide LineAt, Opposite;
    if MatchBackward(s, c, maxLines) == Some(o) {
      BackwardFinds(s, Opposite(close), close, c.line, c.column, bottom, 1, MAX_BRACKET_MATCH_SCAN_BYTES);
    } else if Opens(s, c, o) && c.line <= o.line + maxLines && Distance(s, o, c) <= 524288 {
      BackwardReaches(s, Opposite(close), close, c.line, c.column, bottom, 1, MAX_BRACKET_MATCH_SCAN_BYTES, o);
    }
  }

  // ----- The caret -----

  /** The bracket at `p` has a match in reach. */
  ghost predicate HasMatch(s: Source, p: Place, maxLines: nat) {
    || (OpenerAt(s, p) && MatchForward(s, p, maxLines).Some?)
    || (CloserAt(s, p) && MatchBackward(s, p, maxLines).Some?)
  }

  /** `pair` is the bracket at `p` with its match, and says which of the two it is. */
  ghost predicate IsMatchOf(s: Source, p: Place, pair: MatchPair, maxLines: nat) {
    if pair.caretAtOpener then
      pair.open == p && OpenerAt(s, p) && MatchForward(s, p, maxLines) == Some(pair.close)
    else
      pair.close == p && CloserAt(s, p) && MatchBackward(s, p, maxLines) == Some(pair.open)
  }

  lemma {:induction false} TryFinds(s: Source, line: nat, column: nat, maxLines: nat)
    ensures TryAt(s, line, column, maxLines).Some? <==> HasMatch(s, Place(line, column), maxLines)
    ensures TryAt(s, line, column, maxLines).Some? ==>
              IsMatchOf(s, Place(line, column), TryAt(s, line, column, maxLines).value, maxLines)
  {
    hide MatchForward, MatchBackward, SuppressedAt;
  }

  /** A caret gets the match of the bracket it stands before, else of the one it stands behind, else nothing. */
  lemma {:induction false} CaretFindsItsBracket(s: Source, caret: Place, maxLines: nat)
    ensures var found := MatchInWindow(s, caret, maxLines);
            if HasMatch(s, caret, maxLines) then found.Some? && IsMatchOf(s, caret, found.value, maxLines)
            else if caret.column > 0 && HasMatch(s, Place(caret.line, caret.column - 1), maxLines) then
              found.Some? && IsMatchOf(s, Place(caret.line, caret.column - 1), found.value, maxLines)
            else found.None?
  {
    hide TryAt, IsMatchOf, HasMatch;
    TryFinds(s, caret.line, caret.column, maxLines);
    if caret.column > 0 {
      TryFinds(s, caret.line, caret.column - 1, maxLines);
    }
    if caret.line >= Size(s.lines) {
      NoMatchPastEnd(s, caret.line, caret.column, maxLines);
      if caret.column > 0 {
        NoMatchPastEnd(s, caret.line, caret.column - 1, maxLines);
      }
    }
  }

  lemma {:induction false} NoMatchPastEnd(s: Source, line: nat, column: nat, maxLines: nat)
    requires line >= Size(s.lines)
    ensures !HasMatch(s, Place(line, column), maxLines)
  {
    hide MatchForward, MatchBackward;
  }
}
