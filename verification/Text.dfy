/** Bytes, lines and tokens: what the compare engine knows about a line's text.

    A `char` stands for one byte of the source's `std::string_view`. */
module Text {
  import opened Basics

  type Line = string

  predicate IsAsciiSpace(c: char) {
    c == ' ' || 0x09 <= c as int <= 0x0D
  }

  predicate IsAsciiAlnum(c: char) {
    'a' <= c <= 'z' || 'A' <= c <= 'Z' || '0' <= c <= '9'
  }

  // ----- Splitting a buffer into lines -----

  /** The lines of `content[start..]` when the scan has reached `i`: LF, CR and CRLF all end a
      line, and what follows the last ending is a line too (the trailing phantom). */
  function SplitFrom(content: string, start: nat, i: nat): (lines: seq<Line>)
    requires start <= i <= |content|
    ensures lines != []
    decreases |content| - i
  {
    if i == |content| then [content[start..]]
    else if content[i] != '\r' && content[i] != '\n' then SplitFrom(content, start, i + 1)
    else
      var next := if content[i] == '\r' && i + 1 < |content| && content[i + 1] == '\n' then i + 2 else i + 1;
      [content[start..i]] + SplitFrom(content, next, next)
  }

  function SplitLines(content: string): seq<Line> {
    SplitFrom(content, 0, 0)
  }

  method SplitLineViews(content: string) returns (lines: seq<Line>)
    ensures lines == SplitLines(content)
  {
    lines := [];
    var lineStart, i := 0, 0;
    while i < |content|
      invariant 0 <= lineStart <= i <= |content|
      invariant lines + SplitFrom(content, lineStart, i) == SplitLines(content)
    {
      if content[i] != '\r' && content[i] != '\n' {
        i := i + 1;
        continue;
      }
      lines := lines + [content[lineStart..i]];
      if content[i] == '\r' && i + 1 < |content| && content[i + 1] == '\n' {
        i := i + 1;
      }
      lineStart := i + 1;
      i := i + 1;
    }
    lines := lines + [content[lineStart..]];
  }

  /** A side "has a phantom" when it is empty or ends in a newline. */
  predicate EndsInNewline(content: string) {
    content == "" || content[|content| - 1] == '\n'
  }

  lemma {:induction false} SplitEndsInPhantom(content: string, start: nat, i: nat)
    requires start <= i <= |content|
    requires EndsInNewline(content) && (i == |content| ==> start == |content|)
    ensures SplitFrom(content, start, i)[|SplitFrom(content, start, i)| - 1] == ""
    decreases |content| - i
  {
    if i == |content| {
    } else if content[i] != '\r' && content[i] != '\n' {
      SplitEndsInPhantom(content, start, i + 1);
    } else {
      var next := if content[i] == '\r' && i + 1 < |content| && content[i + 1] == '\n' then i + 2 else i + 1;
      SplitEndsInPhantom(content, next, next);
    }
  }

  /** A buffer that is empty or ends in a newline splits into lines that end with the phantom. */
  lemma {:induction false} PhantomIsLast(content: string)
    requires EndsInNewline(content)
    ensures SplitLines(content)[|SplitLines(content)| - 1] == ""
  {
    SplitEndsInPhantom(content, 0, 0);
  }

  // ----- Line equality -----

  function Strip(line: Line): Line {
    if line == "" then ""
    else if IsAsciiSpace(line[0]) then Strip(line[1..])
    else [line[0]] + Strip(line[1..])
  }

  /** What two lines must share to count as equal. */
  function Key(line: Line, ignoreWhitespace: bool): Line {
    if ignoreWhitespace then Strip(line) else line
  }

  predicate LinesEqualForDiff(left: Line, right: Line, ignoreWhitespace: bool) {
    left == right || (ignoreWhitespace && Strip(left) == Strip(right))
  }

  method LinesEqualIgnoringWhitespace(left: Line, right: Line) returns (equal: bool)
    ensures equal <==> Strip(left) == Strip(right)
  {
    var l, r := 0, 0;
    while l < |left| || r < |right|
      invariant l <= |left| && r <= |right|
      invariant Strip(left) == Strip(right) <==> Strip(left[l..]) == Strip(right[r..])
      decreases |left| - l + |right| - r
    {
      l := SkipSpace(left, l);
      r := SkipSpace(right, r);
      if l >= |left| || r >= |right| {
        return l >= |left| && r >= |right|;
      }
      assert left[l..][1..] == left[l + 1..] && right[r..][1..] == right[r + 1..];
      assert Strip(left[l..]) == [left[l]] + Strip(left[l + 1..]);
      assert Strip(right[r..]) == [right[r]] + Strip(right[r + 1..]);
      if left[l] != right[r] {
        assert Strip(left[l..])[0] != Strip(right[r..])[0];
        return false;
      }
      assert Strip(left[l + 1..]) == Strip(left[l..])[1..] && Strip(right[r + 1..]) == Strip(right[r..])[1..];
      l := l + 1;
      r := r + 1;
    }
    return true;
  }

  method SkipSpace(line: Line, from: nat) returns (to: nat)
    requires from <= |line|
    ensures from <= to <= |line|
    ensures to < |line| ==> !IsAsciiSpace(line[to])
    ensures Strip(line[to..]) == Strip(line[from..])
  {
    to := from;
    while to < |line| && IsAsciiSpace(line[to])
      invariant from <= to <= |line|
      invariant Strip(line[to..]) == Strip(line[from..])
    {
      assert line[to..][1..] == line[to + 1..];
      to := to + 1;
    }
  }

  // ----- Codepoints -----

  predicate Continuation(text: Line, offset: nat, count: nat) {
    offset + count < |text| &&
    forall i | offset < i <= offset + count :: 0x80 <= text[i] as int <= 0xBF
  }

  function Utf8SequenceLength(text: Line, offset: nat): (n: nat)
    ensures offset < |text| ==> 1 <= n && offset + n <= |text|
  {
    if offset >= |text| then 0
    else
      var lead := text[offset] as int;
      if lead <= 0x7F then 1
      else if 0xC2 <= lead <= 0xDF && Continuation(text, offset, 1) then 2
      else if lead == 0xE0 && Continuation(text, offset, 2) && 0xA0 <= text[offset + 1] as int then 3
      else if (0xE1 <= lead <= 0xEC || 0xEE <= lead <= 0xEF) && Continuation(text, offset, 2) then 3
      else if lead == 0xED && Continuation(text, offset, 2) && text[offset + 1] as int <= 0x9F then 3
      else if lead == 0xF0 && Continuation(text, offset, 3) && 0x90 <= text[offset + 1] as int then 4
      else if 0xF1 <= lead <= 0xF3 && Continuation(text, offset, 3) then 4
      else if lead == 0xF4 && Continuation(text, offset, 3) && text[offset + 1] as int <= 0x8F then 4
      else 1
  }

  /** Cut points of a text: every piece `[cuts[k], cuts[k+1])` is non-empty and together they
      tile `text[from..]`. */
  ghost predicate Cuts(text: Line, from: nat, cuts: seq<nat>) {
    && cuts != []
    && cuts[0] == from
    && cuts[|cuts| - 1] == |text|
    && forall i, k | 0 <= i < k < |cuts| :: cuts[i] < cuts[k]
  }

  function Utf8Offsets(text: Line, offset: nat): (cuts: seq<nat>)
    requires offset <= |text|
    ensures Cuts(text, offset, cuts)
    decreases |text| - offset
  {
    if offset == |text| then [offset]
    else [offset] + Utf8Offsets(text, offset + Utf8SequenceLength(text, offset))
  }

  method BuildUtf8Offsets(text: Line) returns (offsets: seq<nat>)
    ensures offsets == Utf8Offsets(text, 0)
  {
    hide Cuts, Utf8SequenceLength;
    offsets := [];
    var offset := 0;
    while offset < |text|
      invariant offset <= |text|
      invariant offsets + Utf8Offsets(text, offset) == Utf8Offsets(text, 0)
    {
      var next := offset + Utf8SequenceLength(text, offset);
      Associate(offsets, [offset], Utf8Offsets(text, next));
      offsets := offsets + [offset];
      offset := next;
    }
    offsets := offsets + [|text|];
  }

  // ----- Tokens -----

  datatype LineTokenKind = Word | Whitespace | Symbol

  datatype LineToken = LineToken(start: nat, end: nat, kind: LineTokenKind)

  function ClassifyCodepoint(text: Line, offset: nat): LineTokenKind {
    if offset >= |text| then Symbol
    else if text[offset] as int > 0x7F then Word
    else if IsAsciiSpace(text[offset]) then Whitespace
    else if IsAsciiAlnum(text[offset]) || text[offset] == '_' then Word
    else Symbol
  }

  /** Where the run of `kind` codepoints at `offset` ends. */
  function RunEnd(text: Line, offset: nat, kind: LineTokenKind): (end: nat)
    requires offset <= |text|
    ensures offset <= end <= |text|
    decreases |text| - offset
  {
    if offset < |text| && ClassifyCodepoint(text, offset) == kind
    then RunEnd(text, offset + Utf8SequenceLength(text, offset), kind)
    else offset
  }

  /** The token that starts at `offset`: symbols are one codepoint each, the rest are runs. */
  function TokenAt(text: Line, offset: nat): (token: LineToken)
    requires offset < |text|
    ensures token.start == offset < token.end <= |text|
  {
    var kind := ClassifyCodepoint(text, offset);
    var next := offset + Utf8SequenceLength(text, offset);
    LineToken(offset, if kind == Symbol then next else RunEnd(text, next, kind), kind)
  }

  ghost predicate Tiles(text: Line, from: nat, tokens: seq<LineToken>) {
    && (if tokens == [] then from == |text| else tokens[0].start == from && tokens[|tokens| - 1].end == |text|)
    && (forall k | 0 <= k < |tokens| :: tokens[k].start < tokens[k].end <= |text|)
    && (forall k | 0 < k < |tokens| :: tokens[k - 1].end == tokens[k].start)
  }

  function Tokenize(text: Line, offset: nat): (tokens: seq<LineToken>)
    requires offset <= |text|
    decreases |text| - offset
  {
    if offset == |text| then []
    else
      var token := TokenAt(text, offset);
      [token] + Tokenize(text, token.end)
  }

  /** Tokens cover the text without gap or overlap. */
  lemma {:induction false} TokensTile(text: Line, offset: nat)
    requires offset <= |text|
    ensures Tiles(text, offset, Tokenize(text, offset))
    decreases |text| - offset
  {
    if offset < |text| {
      TokensTile(text, TokenAt(text, offset).end);
    }
  }

  /** Positions of the non-whitespace tokens. */
  function SignificantIndices(tokens: seq<LineToken>): (indices: seq<nat>)
    ensures forall k | 0 <= k < |indices| :: indices[k] < |tokens| && tokens[indices[k]].kind != Whitespace
  {
    if tokens == [] then []
    else
      var n := |tokens| - 1;
      SignificantIndices(tokens[..n]) + if tokens[n].kind != Whitespace then [n] else []
  }

  function SignificantBytes(tokens: seq<LineToken>): nat {
    if tokens == [] then 0
    else
      var token := tokens[|tokens| - 1];
      SignificantBytes(tokens[..|tokens| - 1])
      + if token.kind != Whitespace && token.start <= token.end then token.end - token.start else 0
  }

  lemma {:induction false} SignificantSnoc(tokens: seq<LineToken>, token: LineToken)
    requires token.start <= token.end
    ensures SignificantIndices(tokens + [token])
         == SignificantIndices(tokens) + if token.kind != Whitespace then [|tokens|] else []
    ensures SignificantBytes(tokens + [token])
         == SignificantBytes(tokens) + if token.kind != Whitespace then token.end - token.start else 0
  {
    assert (tokens + [token])[..|tokens|] == tokens;
  }

  datatype TokenizedLine = TokenizedLine(
    text: Line,
    tokens: seq<LineToken>,
    significantTokenIndices: seq<nat>,
    significantTokenBytes: nat)

  function Tokenized(text: Line): TokenizedLine {
    var tokens := Tokenize(text, 0);
    TokenizedLine(text, tokens, SignificantIndices(tokens), SignificantBytes(tokens))
  }

  method NextToken(text: Line, start: nat) returns (token: LineToken)
    requires start < |text|
    ensures token == TokenAt(text, start)
  {
    var kind := ClassifyCodepoint(text, start);
    var offset := start + Utf8SequenceLength(text, start);
    if kind != Symbol {
      while offset < |text| && ClassifyCodepoint(text, offset) == kind
        invariant offset <= |text|
        invariant RunEnd(text, offset, kind) == TokenAt(text, start).end
      {
        offset := offset + Utf8SequenceLength(text, offset);
      }
    }
    token := LineToken(start, offset, kind);
  }

  method TokenizeLine(text: Line) returns (line: TokenizedLine)
    ensures line == Tokenized(text)
  {
    var tokens: seq<LineToken>, indices: seq<nat>, bytes: nat, offset := [], [], 0, 0;
    while offset < |text|
      invariant offset <= |text|
      invariant tokens + Tokenize(text, offset) == Tokenize(text, 0)
      invariant indices == SignificantIndices(tokens)
      invariant bytes == SignificantBytes(tokens)
    {
      var token := NextToken(text, offset);
      SignificantSnoc(tokens, token);
      Associate(tokens, [token], Tokenize(text, token.end));
      offset := token.end;
      tokens := tokens + [token];
      if token.kind != Whitespace {
        indices := indices + [|tokens| - 1];
        bytes := bytes + (token.end - token.start);
      }
    }
    assert tokens + [] == tokens;
    line := TokenizedLine(text, tokens, indices, bytes);
  }

  /** The scalar alone, without the token vectors, for the line-match weight. */
  method SignificantTokenBytes(text: Line) returns (total: nat)
    ensures total == Tokenized(text).significantTokenBytes
  {
    total := 0;
    var offset := 0;
    ghost var tokens: seq<LineToken> := [];
    while offset < |text|
      invariant offset <= |text|
      invariant tokens + Tokenize(text, offset) == Tokenize(text, 0)
      invariant total == SignificantBytes(tokens)
    {
      var token := NextToken(text, offset);
      SignificantSnoc(tokens, token);
      Associate(tokens, [token], Tokenize(text, token.end));
      tokens := tokens + [token];
      if token.kind != Whitespace {
        total := total + (token.end - token.start);
      }
      offset := token.end;
    }
    assert tokens + [] == tokens;
  }

  /** `left * right > limit`, decided without the product. */
  predicate ProductExceeds(left: nat, right: nat, limit: nat) {
    left != 0 && right != 0 && left > limit / right
  }

  lemma {:induction false} ProductExceedsIsProduct(left: nat, right: nat, limit: nat)
    ensures ProductExceeds(left, right, limit) <==> left * right > limit
  {
    if right != 0 {
      var q := limit / right;
      assert limit == q * right + limit % right;
      if left > q {
        assert left * right >= (q + 1) * right == q * right + right;
      } else {
        assert left * right <= q * right;
      }
    }
  }
}
