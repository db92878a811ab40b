/** What splitting a buffer and tokenizing a line mean, byte by byte. */
module TextLaws {
  import opened Text

  // ----- Lines -----

  predicate IsBreak(c: char) { c == '\r' || c == '\n' }

  predicate IsEnding(ending: string) { ending == "\n" || ending == "\r" || ending == "\r\n" }

  /** Lines with an ending between each and the next. */
  ghost function Rejoin(lines: seq<Line>, endings: seq<string>): string
    requires |lines| == |endings| + 1
  {
    if endings == [] then lines[0] else lines[0] + endings[0] + Rejoin(lines[1..], endings[1..])
  }

  /** `lines` are the pieces of `content` between line endings: none holds a break, and a CR and an LF that follow
      each other are one ending. */
  ghost predicate SplitAt(content: string, lines: seq<Line>, endings: seq<string>) {
    && |lines| == |endings| + 1 && Rejoin(lines, endings) == content
    && (forall k | 0 <= k < |endings| :: IsEnding(endings[k]))
    && (forall k | 0 <= k < |lines| :: forall i | 0 <= i < |lines[k]| :: !IsBreak(lines[k][i]))
    && (forall k | 0 < k < |endings| :: endings[k - 1] == "\r" && lines[k] == "" ==> endings[k] != "\n")
  }

  lemma {:induction false} SplitCons(line: Line, ending: string, content: string, lines: seq<Line>,
                                     endings: seq<string>)
    requires SplitAt(content, lines, endings) && IsEnding(ending)
    requires forall i | 0 <= i < |line| :: !IsBreak(line[i])
    requires ending == "\r" && content != "" ==> content[0] != '\n'
    ensures SplitAt(line + ending + content, [line] + lines, [ending] + endings)
  {
    assert ([line] + lines)[1..] == lines && ([ending] + endings)[1..] == endings;
    if endings != [] && lines[0] == "" {
      assert content == endings[0] + Rejoin(lines[1..], endings[1..]);
      assert endings[0] == "\n" ==> content[0] == '\n';
    }
    var all, ends := [line] + lines, [ending] + endings;
    forall k | 0 < k < |ends| ensures ends[k - 1] == "\r" && all[k] == "" ==> ends[k] != "\n" {
      assert k > 1 ==> endings[k - 2] == ends[k - 1] && lines[k - 1] == all[k];
    }
  }

  lemma {:induction false} LastLine(line: Line)
    requires forall i | 0 <= i < |line| :: !IsBreak(line[i])
    ensures SplitAt(line, [line], [])
  {
  }

  lemma {:induction false} SplitFromSplits(content: string, start: nat, i: nat)
    requires start <= i <= |content| && forall k | start <= k < i :: !IsBreak(content[k])
    ensures exists endings :: SplitAt(content[start..], SplitFrom(content, start, i), endings)
    decreases |content| - i
  {
    hide SplitAt;
    if i == |content| {
      LastLine(content[start..]);
      assert SplitAt(content[start..], SplitFrom(content, start, i), []);
    } else if !IsBreak(content[i]) {
      SplitFromSplits(content, start, i + 1);
      var endings :| SplitAt(content[start..], SplitFrom(content, start, i + 1), endings);
      assert SplitAt(content[start..], SplitFrom(content, start, i), endings);
    } else {
      var next := if content[i] == '\r' && i + 1 < |content| && content[i + 1] == '\n' then i + 2 else i + 1;
      SplitFromSplits(content, next, next);
      var endings :| SplitAt(content[next..], SplitFrom(content, next, next), endings);
      var ending := content[i..next];
      SplitCons(content[start..i], ending, content[next..], SplitFrom(content, next, next), endings);
      assert content[start..i] + ending + content[next..] == content[start..];
      assert SplitAt(content[start..], SplitFrom(content, start, i), [ending] + endings);
    }
  }

  /** Splitting loses nothing: with their endings back between them the lines are the buffer. */
  lemma {:induction false} SplitRejoins(content: string)
    ensures exists endings :: SplitAt(content, SplitLines(content), endings)
  {
    hide SplitAt;
    SplitFromSplits(content, 0, 0);
    assert content[0..] == content;
    var endings :| SplitAt(content[0..], SplitFrom(content, 0, 0), endings);
    assert SplitAt(content, SplitLines(content), endings);
  }

  // ----- Codepoints -----

  function ByteAt(text: Line, offset: nat): int
    requires offset < |text|
  {
    text[offset] as int
  }

  predicate IsContinuation(byte: int) { 0x80 <= byte <= 0xBF }

  /** The `n` bytes at `offset` have the form of a sequence of that length. */
  ghost predicate HasForm(text: Line, offset: nat, n: nat) {
    && 2 <= n <= 4 && offset + n <= |text|
    && (n == 2 ==> 0xC0 <= ByteAt(text, offset) < 0xE0)
    && (n == 3 ==> 0xE0 <= ByteAt(text, offset) < 0xF0)
    && (n == 4 ==> 0xF0 <= ByteAt(text, offset) < 0xF8)
    && forall k | offset < k < offset + n :: IsContinuation(ByteAt(text, k))
  }

  /** The number such bytes spell, six bits each after the first. */
  ghost function Spelled(text: Line, offset: nat, n: nat): int
    requires HasForm(text, offset, n)
  {
    if n == 2 then (ByteAt(text, offset) - 0xC0) * 0x40 + (ByteAt(text, offset + 1) - 0x80)
    else if n == 3 then
      (ByteAt(text, offset) - 0xE0) * 0x1000 + (ByteAt(text, offset + 1) - 0x80) * 0x40
      + (ByteAt(text, offset + 2) - 0x80)
    else
      (ByteAt(text, offset) - 0xF0) * 0x40000 + (ByteAt(text, offset + 1) - 0x80) * 0x1000
      + (ByteAt(text, offset + 2) - 0x80) * 0x40 + (ByteAt(text, offset + 3) - 0x80)
  }

  /** A Unicode scalar value that takes `n` bytes and no fewer. */
  ghost predicate Takes(value: int, n: nat) {
    if n == 2 then 0x80 <= value < 0x800
    else if n == 3 then 0x800 <= value < 0xD800 || 0xE000 <= value < 0x10000
    else 0x10000 <= value < 0x110000
  }

  ghost predicate IsCodepoint(text: Line, offset: nat, n: nat) {
    HasForm(text, offset, n) && Takes(Spelled(text, offset, n), n)
  }

  lemma {:induction false} TwoBytes(text: Line, offset: nat)
    requires offset < |text|
    ensures Utf8SequenceLength(text, offset) == 2 <==> IsCodepoint(text, offset, 2)
  {
  }

  lemma {:induction false} ThreeBytes(text: Line, offset: nat)
    requires offset < |text|
    ensures Utf8SequenceLength(text, offset) == 3 <==> IsCodepoint(text, offset, 3)
  {
    if offset + 3 <= |text| {
      assert IsContinuation(ByteAt(text, offset + 1)) && IsContinuation(ByteAt(text, offset + 2))
        <==> Continuation(text, offset, 2);
    }
  }

  lemma {:induction false} FourBytes(text: Line, offset: nat)
    requires offset < |text|
    ensures Utf8SequenceLength(text, offset) == 4 <==> IsCodepoint(text, offset, 4)
  {
    if offset + 4 <= |text| {
      assert IsContinuation(ByteAt(text, offset + 1)) && IsContinuation(ByteAt(text, offset + 2))
             && IsContinuation(ByteAt(text, offset + 3))
        <==> Continuation(text, offset, 3);
    }
  }

  /** A codepoint of several bytes is exactly the shortest UTF-8 form of a Unicode scalar value; any other byte is
      one on its own. */
  lemma {:induction false} CodepointsAreShortestForms(text: Line, offset: nat)
    requires offset < |text|
    ensures forall n: nat | 2 <= n <= 4 :: Utf8SequenceLength(text, offset) == n <==> IsCodepoint(text, offset, n)
    ensures Utf8SequenceLength(text, offset) == 1 <==> forall n: nat | 2 <= n <= 4 :: !IsCodepoint(text, offset, n)
  {
    TwoBytes(text, offset);
    ThreeBytes(text, offset);
    FourBytes(text, offset);
    LengthIsSmall(text, offset);
    hide Utf8SequenceLength, IsCodepoint;
    forall n: nat | 2 <= n <= 4 ensures Utf8SequenceLength(text, offset) == n <==> IsCodepoint(text, offset, n) {
      assert n == 2 || n == 3 || n == 4;
    }
  }

  lemma {:induction false} LengthIsSmall(text: Line, offset: nat)
    requires offset < |text|
    ensures 1 <= Utf8SequenceLength(text, offset) <= 4
  {
  }

  // ----- Tokens -----

  function KindOfByte(c: char): LineTokenKind {
    if c == ' ' || '\t' <= c <= '\r' then Whitespace
    else if 'a' <= c <= 'z' || 'A' <= c <= 'Z' || '0' <= c <= '9' || c == '_' || c as int >= 0x80 then Word
    else Symbol
  }

  /** Bytes of one kind. */
  ghost predicate AllOf(text: Line, kind: LineTokenKind, from: nat, end: nat) {
    from <= end <= |text| && forall i | from <= i < end :: KindOfByte(text[i]) == kind
  }

  lemma {:induction false} ClassIsKind(text: Line, offset: nat)
    requires offset < |text|
    ensures ClassifyCodepoint(text, offset) == KindOfByte(text[offset])
    ensures AllOf(text, KindOfByte(text[offset]), offset, offset + Utf8SequenceLength(text, offset))
    ensures KindOfByte(text[offset]).Symbol? ==> Utf8SequenceLength(text, offset) == 1
  {
  }

  lemma {:induction false} RunIsMaximal(text: Line, offset: nat, kind: LineTokenKind)
    requires offset <= |text|
    ensures var end := RunEnd(text, offset, kind);
            AllOf(text, kind, offset, end) && (end < |text| ==> KindOfByte(text[end]) != kind)
    decreases |text| - offset
  {
    hide ClassifyCodepoint, Utf8SequenceLength, KindOfByte;
    if offset < |text| {
      ClassIsKind(text, offset);
      if ClassifyCodepoint(text, offset) == kind {
        RunIsMaximal(text, offset + Utf8SequenceLength(text, offset), kind);
      }
    }
  }

  /** A token's bytes are of its kind; a symbol is one byte, and any other token is as long as it can be. */
  ghost predicate IsToken(text: Line, token: LineToken) {
    && token.start < token.end && AllOf(text, token.kind, token.start, token.end)
    && if token.kind.Symbol? then token.end == token.start + 1
       else token.end < |text| ==> KindOfByte(text[token.end]) != token.kind
  }

  lemma {:induction false} TokenIsRun(text: Line, offset: nat)
    requires offset < |text|
    ensures IsToken(text, TokenAt(text, offset))
  {
    hide ClassifyCodepoint, Utf8SequenceLength, KindOfByte, RunEnd;
    ClassIsKind(text, offset);
    RunIsMaximal(text, offset + Utf8SequenceLength(text, offset), ClassifyCodepoint(text, offset));
  }

  /** The tokens of a line cover it and are its maximal runs of words and of spaces, and its symbols. */
  lemma {:induction false} TokensAreRuns(text: Line, offset: nat)
    requires offset <= |text|
    ensures var tokens := Tokenize(text, offset);
            Tiles(text, offset, tokens) && forall k | 0 <= k < |tokens| :: IsToken(text, tokens[k])
    decreases |text| - offset
  {
    TokensTile(text, offset);
    hide IsToken, Tiles, TokenAt;
    if offset < |text| {
      TokenIsRun(text, offset);
      TokensAreRuns(text, TokenAt(text, offset).end);
    }
  }

  // ----- Significant bytes -----

  lemma {:induction false} BytesCons(token: LineToken, tokens: seq<LineToken>)
    requires token.start <= token.end
    ensures SignificantBytes([token] + tokens)
         == (if token.kind != Whitespace then token.end - token.start else 0) + SignificantBytes(tokens)
  {
    if tokens == [] {
      assert [token] + tokens == [token];
      assert [token][..0] == [];
    } else {
      var n := |tokens| - 1;
      BytesCons(token, tokens[..n]);
      assert ([token] + tokens)[..n + 1] == [token] + tokens[..n];
    }
  }

  lemma {:induction false} StripRun(text: Line, kind: LineTokenKind, from: nat, end: nat)
    requires from <= end && AllOf(text, kind, from, end)
    ensures |Strip(text[from..])| == (if kind != Whitespace then end - from else 0) + |Strip(text[end..])|
    decreases end - from
  {
    if from < end {
      assert text[from..][1..] == text[from + 1..] && text[from..][0] == text[from];
      assert KindOfByte(text[from]) == kind;
      StripRun(text, kind, from + 1, end);
    }
  }

  lemma {:induction false} BytesFrom(text: Line, offset: nat)
    requires offset <= |text|
    ensures SignificantBytes(Tokenize(text, offset)) == |Strip(text[offset..])|
    decreases |text| - offset
  {
    hide Strip, SignificantBytes, TokenAt, KindOfByte;
    if offset == |text| {
      NothingSignificant(text);
    } else {
      var token := TokenAt(text, offset);
      TokenIsRun(text, offset);
      BytesFrom(text, token.end);
      BytesCons(token, Tokenize(text, token.end));
      StripRun(text, token.kind, token.start, token.end);
    }
  }

  lemma {:induction false} NothingSignificant(text: Line)
    ensures SignificantBytes([]) == 0 == |Strip(text[|text|..])|
  {
  }

  /** A line's significant bytes are those that are not spaces. */
  lemma {:induction false} SignificantBytesAreNonSpace(text: Line)
    ensures Tokenized(text).significantTokenBytes == |Strip(text)|
  {
    hide Strip, SignificantBytes, Tokenize;
    BytesFrom(text, 0);
    assert text[0..] == text;
  }

  /** Stripping keeps the bytes that are not spaces, in order. */
  lemma {:induction false} StripKeepsNonSpace(line: Line, k: nat)
    requires k < |line|
    ensures Strip(line) == Strip(line[..k]) + (if KindOfByte(line[k]).Whitespace? then "" else [line[k]])
                           + Strip(line[k + 1..])
  {
    if k == 0 {
      assert line[..0] == "";
    } else {
      StripKeepsNonSpace(line[1..], k - 1);
      assert line[1..][..k - 1] == line[..k][1..] && line[1..][k..] == line[k + 1..];
    }
  }
}
