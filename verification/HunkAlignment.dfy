/** Pairing the deleted lines of a hunk with its inserted lines: a minimum-cost alignment by dynamic
    programming, with a coarse fallback for large hunks. */
module HunkAlignment {
  import opened Basics
  import opened Text
  import opened LineSimilarity

  const MAX_HUNK_ALIGNMENT_MATRIX_CELLS := 65536
  const EPSILON: real := 0.000001

  datatype Kind = Pair | Delete | Insert

  /** Similarities of the deleted lines (rows) with the inserted lines (columns). */
  datatype Grid = Grid(rows: nat, columns: nat, similarities: seq<seq<real>>)

  function SimilarityAt(g: Grid, i: nat, j: nat): real {
    if i < |g.similarities| && j < |g.similarities[i]| then g.similarities[i][j] else 0.0
  }

  function PairCost(similarity: real): real {
    1.15 - 0.85 * Clamp(similarity)
  }

  predicate CanPair(similarity: real, rows: nat, columns: nat) {
    if rows == 1 && columns == 1 then true
    else if (rows == 1 && columns > 1) || (columns == 1 && rows > 1) then false
    else similarity >= PAIRING_GATE
  }

  // ----- The table -----

  /** The best candidate so far; `Nothing` stands for the infinite starting cost. */
  datatype Choice = Nothing | Choice(cost: real, kind: Kind, similarity: real)

  function Abs(x: real): real { if x < 0.0 then -x else x }

  /** A candidate wins by more than epsilon; on a tie a pair wins over anything but a pair as similar. */
  function Consider(best: Choice, candidate: Choice): Choice
    requires candidate.Choice?
  {
    if best.Nothing? || candidate.cost + EPSILON < best.cost then candidate
    else if Abs(candidate.cost - best.cost) > EPSILON then best
    else if candidate.kind.Pair? && (!best.kind.Pair? || candidate.similarity > best.similarity + EPSILON)
    then best.(kind := candidate.kind, similarity := candidate.similarity)
    else best
  }

  /** One inner cell, from the cells diagonally below, below and to the right. */
  function Decide(g: Grid, similarity: real, diagonal: real, below: real, right: real): (c: Choice)
    ensures c.Choice?
  {
    var start := if CanPair(similarity, g.rows, g.columns)
                 then Consider(Nothing, Choice(PairCost(similarity) + diagonal, Pair, similarity)) else Nothing;
    Consider(Consider(start, Choice(1.0 + below, Delete, -1.0)), Choice(1.0 + right, Insert, -1.0))
  }

  function Cell(g: Grid, i: nat, j: nat): (c: Choice)
    requires i <= g.rows && j <= g.columns
    ensures c.Choice?
    decreases g.rows - i + g.columns - j
  {
    if i == g.rows then Choice((g.columns - j) as real, if j == g.columns then Pair else Insert, -1.0)
    else if j == g.columns then Choice((g.rows - i) as real, Delete, -1.0)
    else Decide(g, SimilarityAt(g, i, j), Cell(g, i + 1, j + 1).cost, Cell(g, i + 1, j).cost, Cell(g, i, j + 1).cost)
  }

  /** The walk through the table. */
  function Walk(g: Grid, i: nat, j: nat): seq<Kind>
    requires i <= g.rows && j <= g.columns
    decreases g.rows - i + g.columns - j
  {
    if i == g.rows && j == g.columns then []
    else if i == g.rows then [Insert] + Walk(g, i, j + 1)
    else if j == g.columns then [Delete] + Walk(g, i + 1, j)
    else
      match Cell(g, i, j).kind
      case Pair => [Pair] + Walk(g, i + 1, j + 1)
      case Delete => [Delete] + Walk(g, i + 1, j)
      case Insert => [Insert] + Walk(g, i, j + 1)
  }

  // ----- Alignments and their cost -----

  /** `kinds` takes each remaining line once, in order, and pairs only lines that may be paired. */
  ghost predicate Aligns(g: Grid, kinds: seq<Kind>, i: nat, j: nat)
    decreases |kinds|
  {
    if kinds == [] then i == g.rows && j == g.columns
    else
      match kinds[0]
      case Pair => i < g.rows && j < g.columns && CanPair(SimilarityAt(g, i, j), g.rows, g.columns)
          && Aligns(g, kinds[1..], i + 1, j + 1)
      case Delete => i < g.rows && Aligns(g, kinds[1..], i + 1, j)
      case Insert => j < g.columns && Aligns(g, kinds[1..], i, j + 1)
  }

  ghost function Cost(g: Grid, kinds: seq<Kind>, i: nat, j: nat): real
    decreases |kinds|
  {
    if kinds == [] then 0.0
    else
      match kinds[0]
      case Pair => PairCost(SimilarityAt(g, i, j)) + Cost(g, kinds[1..], i + 1, j + 1)
      case Delete => 1.0 + Cost(g, kinds[1..], i + 1, j)
      case Insert => 1.0 + Cost(g, kinds[1..], i, j + 1)
  }

  function Count(kinds: seq<Kind>, kind: Kind): nat {
    if kinds == [] then 0 else (if kinds[0] == kind then 1 else 0) + Count(kinds[1..], kind)
  }

  /** Every deleted line is paired or deleted once, every inserted line paired or inserted once. */
  ghost predicate ConsumesOnce(kinds: seq<Kind>, rows: nat, columns: nat) {
    Count(kinds, Pair) + Count(kinds, Delete) == rows && Count(kinds, Pair) + Count(kinds, Insert) == columns
  }

  lemma {:induction false} AlignsConsumes(g: Grid, kinds: seq<Kind>, i: nat, j: nat)
    requires i <= g.rows && j <= g.columns && Aligns(g, kinds, i, j)
    ensures ConsumesOnce(kinds, g.rows - i, g.columns - j)
  {
    if kinds != [] {
      match kinds[0]
      case Pair => AlignsConsumes(g, kinds[1..], i + 1, j + 1);
      case Delete => AlignsConsumes(g, kinds[1..], i + 1, j);
      case Insert => AlignsConsumes(g, kinds[1..], i, j + 1);
    }
  }

  // ----- What a decision guarantees -----

  /** A decision is no more than epsilon above any candidate, and costs what its candidate costs. */
  lemma {:induction false} DecideIsNearMinimal(g: Grid, similarity: real, diagonal: real, below: real, right: real)
    ensures var c := Decide(g, similarity, diagonal, below, right);
            && c.cost <= 1.0 + below + EPSILON
            && c.cost <= 1.0 + right + EPSILON
            && (CanPair(similarity, g.rows, g.columns) ==> c.cost <= PairCost(similarity) + diagonal + EPSILON)
            && c.cost == (match c.kind
                          case Pair => PairCost(similarity) + diagonal
                          case Delete => 1.0 + below
                          case Insert => 1.0 + right)
            && (c.kind.Pair? ==> CanPair(similarity, g.rows, g.columns))
  {
  }

  /** A decision reads the similarity only where it may pair: two values that agree on the gate, and
      above it agree altogether, decide alike. */
  lemma {:induction false} GateDecides(g: Grid, s: real, t: real, diagonal: real, below: real, right: real)
    requires CanPair(s, g.rows, g.columns) == CanPair(t, g.rows, g.columns)
    requires CanPair(s, g.rows, g.columns) ==> s == t
    ensures Decide(g, s, diagonal, below, right) == Decide(g, t, diagonal, below, right)
  {
  }

  // ----- The main result -----

  lemma {:induction false} NothingAligned(g: Grid)
    ensures Aligns(g, [], g.rows, g.columns) && Cost(g, [], g.rows, g.columns) == 0.0
  {
  }

  /** What one more step at the front of an alignment needs and costs. */
  lemma {:induction false} AlignsCons(g: Grid, kind: Kind, rest: seq<Kind>, i: nat, j: nat)
    requires kind.Insert? || i < g.rows
    requires kind.Delete? || j < g.columns
    requires kind.Pair? ==> CanPair(SimilarityAt(g, i, j), g.rows, g.columns)
    ensures var i1, j1 := if kind.Insert? then i else i + 1, if kind.Delete? then j else j + 1;
            && (Aligns(g, [kind] + rest, i, j) <==> Aligns(g, rest, i1, j1))
            && Cost(g, [kind] + rest, i, j) == Cost(g, rest, i1, j1)
                + if kind.Pair? then PairCost(SimilarityAt(g, i, j)) else 1.0
  {
    assert ([kind] + rest)[1..] == rest;
  }

  /** The walk is an alignment and costs what the table says. */
  lemma {:induction false} WalkAligns(g: Grid, i: nat, j: nat)
    requires i <= g.rows && j <= g.columns
    ensures Aligns(g, Walk(g, i, j), i, j)
    ensures Cost(g, Walk(g, i, j), i, j) == Cell(g, i, j).cost
    decreases g.rows - i + g.columns - j
  {
    hide Decide, SimilarityAt, CanPair, PairCost, Aligns, Cost;
    if i == g.rows && j == g.columns {
      NothingAligned(g);
    } else if i == g.rows {
      WalkAligns(g, i, j + 1);
      AlignsCons(g, Insert, Walk(g, i, j + 1), i, j);
    } else if j == g.columns {
      WalkAligns(g, i + 1, j);
      AlignsCons(g, Delete, Walk(g, i + 1, j), i, j);
    } else {
      WalkStep(g, i, j);
      match Cell(g, i, j).kind
      case Pair =>
        WalkAligns(g, i + 1, j + 1);
        AlignsCons(g, Pair, Walk(g, i + 1, j + 1), i, j);
      case Delete =>
        WalkAligns(g, i + 1, j);
        AlignsCons(g, Delete, Walk(g, i + 1, j), i, j);
      case Insert =>
        WalkAligns(g, i, j + 1);
        AlignsCons(g, Insert, Walk(g, i, j + 1), i, j);
    }
  }

  /** What `DecideIsNearMinimal` says of a cell. */
  lemma {:induction false} WalkStep(g: Grid, i: nat, j: nat)
    requires i < g.rows && j < g.columns
    ensures var c := Cell(g, i, j);
            && c.cost <= 1.0 + Cell(g, i + 1, j).cost + EPSILON
            && c.cost <= 1.0 + Cell(g, i, j + 1).cost + EPSILON
            && (CanPair(SimilarityAt(g, i, j), g.rows, g.columns)
                ==> c.cost <= PairCost(SimilarityAt(g, i, j)) + Cell(g, i + 1, j + 1).cost + EPSILON)
            && (c.kind.Pair? ==> CanPair(SimilarityAt(g, i, j), g.rows, g.columns))
            && c.cost == (match c.kind
                          case Pair => PairCost(SimilarityAt(g, i, j)) + Cell(g, i + 1, j + 1).cost
                          case Delete => 1.0 + Cell(g, i + 1, j).cost
                          case Insert => 1.0 + Cell(g, i, j + 1).cost)
  {
    DecideIsNearMinimal(g, SimilarityAt(g, i, j), Cell(g, i + 1, j + 1).cost, Cell(g, i + 1, j).cost,
                        Cell(g, i, j + 1).cost);
  }

  lemma {:induction false} CellNearMinimal(g: Grid, kinds: seq<Kind>, i: nat, j: nat)
    requires i <= g.rows && j <= g.columns && Aligns(g, kinds, i, j)
    ensures Cell(g, i, j).cost <= Cost(g, kinds, i, j) + (g.rows - i + g.columns - j) as real * EPSILON
    decreases |kinds|
  {
    hide Decide, Consider, PairCost;
    if kinds != [] {
      if i < g.rows && j < g.columns {
        WalkStep(g, i, j);
      }
      match kinds[0]
      case Pair => CellNearMinimal(g, kinds[1..], i + 1, j + 1);
      case Delete => CellNearMinimal(g, kinds[1..], i + 1, j);
      case Insert => CellNearMinimal(g, kinds[1..], i, j + 1);
    }
  }

  /** The alignment found costs at most epsilon per line more than any other. */
  lemma {:induction false} WalkIsNearMinimal(g: Grid, kinds: seq<Kind>)
    requires Aligns(g, kinds, 0, 0)
    ensures Aligns(g, Walk(g, 0, 0), 0, 0)
    ensures Cost(g, Walk(g, 0, 0), 0, 0) <= Cost(g, kinds, 0, 0) + (g.rows + g.columns) as real * EPSILON
  {
    WalkAligns(g, 0, 0);
    CellNearMinimal(g, kinds, 0, 0);
  }

  // ----- The grid of a hunk -----

  function SimilarityRow(left: Line, inserted: seq<Line>): (row: seq<real>)
    ensures |row| == |inserted| && forall j | 0 <= j < |row| :: row[j] == Similarity(left, inserted[j])
  {
    if inserted == [] then []
    else SimilarityRow(left, inserted[..|inserted| - 1]) + [Similarity(left, inserted[|inserted| - 1])]
  }

  /** The rows of the first `count` deleted lines. */
  function SimilarityRows(deleted: seq<Line>, inserted: seq<Line>, count: nat): (rows: seq<seq<real>>)
    requires count <= |deleted|
    ensures |rows| == count && forall i | 0 <= i < count :: rows[i] == SimilarityRow(deleted[i], inserted)
  {
    if count == 0 then []
    else SimilarityRows(deleted, inserted, count - 1) + [SimilarityRow(deleted[count - 1], inserted)]
  }

  function GridOf(deleted: seq<Line>, inserted: seq<Line>): Grid {
    Grid(|deleted|, |inserted|, SimilarityRows(deleted, inserted, |deleted|))
  }

  lemma {:induction false} GridAt(deleted: seq<Line>, inserted: seq<Line>, i: nat, j: nat)
    requires i < |deleted| && j < |inserted|
    ensures SimilarityAt(GridOf(deleted, inserted), i, j) == Similarity(deleted[i], inserted[j])
  {
  }

  /** How a hunk is aligned, through every branch. */
  function Alignment(deleted: seq<Line>, inserted: seq<Line>): seq<Kind> {
    if deleted == [] then Repeat(Insert, |inserted|)
    else if inserted == [] then Repeat(Delete, |deleted|)
    else if ProductExceeds(|deleted| + 1, |inserted| + 1, MAX_HUNK_ALIGNMENT_MATRIX_CELLS) then
      var paired := Min(|deleted|, |inserted|);
      Repeat(Pair, paired) + Repeat(Delete, |deleted| - paired) + Repeat(Insert, |inserted| - paired)
    else Walk(GridOf(deleted, inserted), 0, 0)
  }

  lemma {:induction false} CountConcat(a: seq<Kind>, b: seq<Kind>, kind: Kind)
    ensures Count(a + b, kind) == Count(a, kind) + Count(b, kind)
  {
    if a == [] {
      assert a + b == b;
    } else {
      CountConcat(a[1..], b, kind);
      assert (a + b)[1..] == a[1..] + b;
    }
  }

  lemma {:induction false} CountRepeat(kind: Kind, count: nat, counted: Kind)
    ensures Count(Repeat(kind, count), counted) == if counted == kind then count else 0
  {
    if count > 0 {
      CountRepeat(kind, count - 1, counted);
      CountConcat(Repeat(kind, count - 1), [kind], counted);
    }
  }

  lemma {:induction false} CoarseConsumes(paired: nat, deletes: nat, inserts: nat)
    ensures ConsumesOnce(Repeat(Pair, paired) + Repeat(Delete, deletes) + Repeat(Insert, inserts), paired + deletes,
                         paired + inserts)
  {
    var a, b, c := Repeat(Pair, paired), Repeat(Delete, deletes), Repeat(Insert, inserts);
    forall kind ensures Count(a + b + c, kind) == Count(a, kind) + Count(b, kind) + Count(c, kind) {
      CountConcat(a + b, c, kind);
      CountConcat(a, b, kind);
    }
    forall kind ensures Count(a, kind) == if kind == Pair then paired else 0 { CountRepeat(Pair, paired, kind); }
    forall kind ensures Count(b, kind) == if kind == Delete then deletes else 0 { CountRepeat(Delete, deletes, kind); }
    forall kind ensures Count(c, kind) == if kind == Insert then inserts else 0 { CountRepeat(Insert, inserts, kind); }
  }

  /** In every branch each deleted and each inserted line is taken exactly once. */
  lemma {:induction false} AlignmentConsumesOnce(deleted: seq<Line>, inserted: seq<Line>)
    ensures ConsumesOnce(Alignment(deleted, inserted), |deleted|, |inserted|)
  {
    if deleted == [] {
      CountRepeat(Insert, |inserted|, Pair);
      CountRepeat(Insert, |inserted|, Delete);
      CountRepeat(Insert, |inserted|, Insert);
    } else if inserted == [] {
      CountRepeat(Delete, |deleted|, Pair);
      CountRepeat(Delete, |deleted|, Delete);
      CountRepeat(Delete, |deleted|, Insert);
    } else if ProductExceeds(|deleted| + 1, |inserted| + 1, MAX_HUNK_ALIGNMENT_MATRIX_CELLS) {
      var paired := Min(|deleted|, |inserted|);
      CoarseConsumes(paired, |deleted| - paired, |inserted| - paired);
    } else {
      var g := GridOf(deleted, inserted);
      WalkAligns(g, 0, 0);
      AlignsConsumes(g, Walk(g, 0, 0), 0, 0);
    }
  }

  /** Below the cell cap the alignment of a hunk is near-minimal among all the gate allows. */
  lemma {:induction false} AlignmentIsNearMinimal(deleted: seq<Line>, inserted: seq<Line>, kinds: seq<Kind>)
    requires deleted != [] && inserted != []
    requires (|deleted| + 1) * (|inserted| + 1) <= MAX_HUNK_ALIGNMENT_MATRIX_CELLS
    requires Aligns(GridOf(deleted, inserted), kinds, 0, 0)
    ensures var g := GridOf(deleted, inserted);
            && Aligns(g, Alignment(deleted, inserted), 0, 0)
            && Cost(g, Alignment(deleted, inserted), 0, 0) <= Cost(g, kinds, 0, 0)
                + (|deleted| + |inserted|) as real * EPSILON
  {
    ProductExceedsIsProduct(|deleted| + 1, |inserted| + 1, MAX_HUNK_ALIGNMENT_MATRIX_CELLS);
    WalkIsNearMinimal(GridOf(deleted, inserted), kinds);
  }

  // ----- The ceiling shortcut -----

  predicate PairingPossible(rows: nat, columns: nat) {
    !((rows == 1 && columns > 1) || (columns == 1 && rows > 1))
  }

  /** Reporting the ceiling in place of a similarity below the gate, or nothing at all where no pair is
      possible, changes no decision. */
  lemma {:induction false} ShortcutIsHarmless(left: Line, right: Line, rows: nat, columns: nat, reported: real)
    requires 0 < rows && 0 < columns
    requires var lb, rb := Tokenized(left).significantTokenBytes, Tokenized(right).significantTokenBytes;
             || !PairingPossible(rows, columns)
             || reported == Similarity(left, right)
             || (!(rows == 1 && columns == 1) && lb + rb > 0 && Ceiling(lb, rb) < PAIRING_GATE
                 && reported == Ceiling(lb, rb))
    ensures CanPair(reported, rows, columns) == CanPair(Similarity(left, right), rows, columns)
    ensures CanPair(reported, rows, columns) ==> reported == Similarity(left, right) || !PairingPossible(rows, columns)
  {
    if Tokenized(left).significantTokenBytes + Tokenized(right).significantTokenBytes > 0 {
      CeilingHolds(left, right);
    }
  }

  /** The similarity of one cell, skipping the token comparison where the byte counts rule a pair out. */
  method SimilarityForCell(left: TokenizedLine, right: TokenizedLine, rows: nat, columns: nat)
      returns (similarity: real)
    requires left == Tokenized(left.text) && right == Tokenized(right.text) && 0 < rows && 0 < columns
    ensures CanPair(similarity, rows, columns) == CanPair(Similarity(left.text, right.text), rows, columns)
    ensures CanPair(similarity, rows, columns) ==> similarity == Similarity(left.text, right.text)
  {
    similarity := 0.0;
    if PairingPossible(rows, columns) {
      var total := left.significantTokenBytes + right.significantTokenBytes;
      if !(rows == 1 && columns == 1) && total > 0 {
        var ceiling := Ceiling(left.significantTokenBytes, right.significantTokenBytes);
        if ceiling < PAIRING_GATE {
          ShortcutIsHarmless(left.text, right.text, rows, columns, ceiling);
          return ceiling;
        }
      }
      similarity := MeasureSimilarity(left, right);
    }
  }

  // ----- The methods -----

  ghost predicate RowIsCells(g: Grid, row: seq<Choice>, i: nat) {
    && i <= g.rows && |row| == g.columns + 1
    && forall j | 0 <= j <= g.columns :: row[j] == Cell(g, i, j)
  }

  ghost predicate TokenizedAs(lines: seq<Line>, tokenized: seq<TokenizedLine>) {
    |tokenized| == |lines| && forall k | 0 <= k < |lines| :: tokenized[k] == Tokenized(lines[k])
  }

  method TokenizeLines(lines: seq<Line>) returns (tokenized: seq<TokenizedLine>)
    ensures TokenizedAs(lines, tokenized)
  {
    tokenized := [];
    var k := 0;
    while k < |lines|
      invariant k <= |lines| && TokenizedAs(lines[..k], tokenized)
    {
      var line := TokenizeLine(lines[k]);
      tokenized := tokenized + [line];
      k := k + 1;
    }
    assert lines[..k] == lines;
  }

  /** One cell: the candidates in the order pair, delete, insert. */
  method FillCell(g: Grid, similarity: real, diagonal: real, below: real, right: real) returns (cell: Choice)
    ensures cell == Decide(g, similarity, diagonal, below, right)
  {
    cell := Nothing;
    if PairingPossible(g.rows, g.columns) && CanPair(similarity, g.rows, g.columns) {
      cell := Consider(cell, Choice(PairCost(similarity) + diagonal, Pair, similarity));
    }
    cell := Consider(cell, Choice(1.0 + below, Delete, -1.0));
    cell := Consider(cell, Choice(1.0 + right, Insert, -1.0));
  }

  method FillRow(deleted: seq<Line>, inserted: seq<Line>, left: TokenizedLine, right: seq<TokenizedLine>, i: nat,
                 next: seq<Choice>)
    returns (row: seq<Choice>)
    requires i < |deleted| && left == Tokenized(deleted[i]) && TokenizedAs(inserted, right)
    requires RowIsCells(GridOf(deleted, inserted), next, i + 1)
    ensures RowIsCells(GridOf(deleted, inserted), row, i)
  {
    ghost var g := GridOf(deleted, inserted);
    var rows, columns := |deleted|, |inserted|;
    row := next[columns := Choice((rows - i) as real, Delete, -1.0)];
    var j := columns;
    while j > 0
      invariant 0 <= j <= columns && |row| == columns + 1
      invariant forall y | j <= y <= columns :: row[y] == Cell(g, i, y)
    {
      j := j - 1;
      var similarity := SimilarityForCell(left, right[j], rows, columns);
      assert next[j] == Cell(g, i + 1, j) && next[j + 1] == Cell(g, i + 1, j + 1);
      var cell := FillCell(Grid(rows, columns, []), similarity, next[j + 1].cost, next[j].cost, row[j + 1].cost);
      CellFromReported(deleted, inserted, i, j, similarity);
      row := row[j := cell];
    }
  }

  lemma {:induction false} CellFromReported(deleted: seq<Line>, inserted: seq<Line>, i: nat, j: nat, reported: real)
    requires i < |deleted| && j < |inserted|
    requires CanPair(reported, |deleted|, |inserted|)
             == CanPair(Similarity(deleted[i], inserted[j]), |deleted|, |inserted|)
    requires CanPair(reported, |deleted|, |inserted|) ==> reported == Similarity(deleted[i], inserted[j])
    ensures var g := GridOf(deleted, inserted);
            Cell(g, i, j) == Decide(Grid(|deleted|, |inserted|, []), reported, Cell(g, i + 1, j + 1).cost,
                                    Cell(g, i + 1, j).cost, Cell(g, i, j + 1).cost)
  {
    var g := GridOf(deleted, inserted);
    GridAt(deleted, inserted, i, j);
    GateDecides(g, reported, SimilarityAt(g, i, j), Cell(g, i + 1, j + 1).cost, Cell(g, i + 1, j).cost,
                Cell(g, i, j + 1).cost);
  }

  ghost predicate TableIsCells(g: Grid, table: seq<seq<Choice>>, from: nat) {
    |table| == g.rows + 1 && forall i | from <= i <= g.rows :: RowIsCells(g, table[i], i)
  }

  method FillTable(deleted: seq<Line>, inserted: seq<Line>) returns (table: seq<seq<Choice>>)
    ensures TableIsCells(GridOf(deleted, inserted), table, 0)
  {
    var left := TokenizeLines(deleted);
    var right := TokenizeLines(inserted);
    var rows, columns := |deleted|, |inserted|;
    var row := FillBottomRow(deleted, inserted);
    table := seq(rows + 1, _ => row);
    var i := rows;
    while i > 0
      invariant 0 <= i <= rows && TableIsCells(GridOf(deleted, inserted), table, i)
    {
      i := i - 1;
      row := FillRow(deleted, inserted, left[i], right, i, table[i + 1]);
      table := table[i := row];
    }
  }

  method FillBottomRow(deleted: seq<Line>, inserted: seq<Line>) returns (row: seq<Choice>)
    ensures RowIsCells(GridOf(deleted, inserted), row, |deleted|)
  {
    var columns := |inserted|;
    row := seq(columns + 1, _ => Choice(0.0, Pair, -1.0));
    var j := columns;
    while j > 0
      invariant 0 <= j <= columns && |row| == columns + 1
      invariant forall y | j <= y <= columns :: row[y] == Cell(GridOf(deleted, inserted), |deleted|, y)
    {
      j := j - 1;
      row := row[j := Choice((columns - j) as real, Insert, -1.0)];
    }
  }

  /** The step a walk takes first. */
  lemma {:induction false} WalkOn(g: Grid, i: nat, j: nat, kind: Kind)
    requires i <= g.rows && j <= g.columns && (i < g.rows || j < g.columns)
    requires kind == if i == g.rows then Insert else if j == g.columns then Delete else Cell(g, i, j).kind
    ensures kind.Insert? || i < g.rows
    ensures kind.Delete? || j < g.columns
    ensures Walk(g, i, j) == [kind] + Walk(g, if kind.Insert? then i else i + 1, if kind.Delete? then j else j + 1)
  {
    hide Cell;
  }

  lemma {:induction false} WalkEnds(g: Grid)
    ensures Walk(g, g.rows, g.columns) == []
  {
  }

  method WalkTable(ghost g: Grid, rows: nat, columns: nat, table: seq<seq<Choice>>) returns (alignment: seq<Kind>)
    requires rows == g.rows && columns == g.columns && TableIsCells(g, table, 0)
    ensures alignment == Walk(g, 0, 0)
  {
    hide Cell, Walk;
    alignment := [];
    var i, j := 0, 0;
    while i < rows || j < columns
      invariant i <= rows && j <= columns
      invariant alignment + Walk(g, i, j) == Walk(g, 0, 0)
      decreases rows - i + columns - j
    {
      if i >= rows {
        WalkOn(g, i, j, Insert);
        Associate(alignment, [Insert], Walk(g, i, j + 1));
        alignment := alignment + [Insert];
        j := j + 1;
        continue;
      }
      if j >= columns {
        WalkOn(g, i, j, Delete);
        Associate(alignment, [Delete], Walk(g, i + 1, j));
        alignment := alignment + [Delete];
        i := i + 1;
        continue;
      }
      assert RowIsCells(g, table[i], i);
      var kind := table[i][j].kind;
      WalkOn(g, i, j, kind);
      ghost var before := alignment;
      alignment := alignment + [kind];
      match kind
      case Pair => i, j := i + 1, j + 1;
      case Delete => i := i + 1;
      case Insert => j := j + 1;
      Associate(before, [kind], Walk(g, i, j));
    }
    WalkEnds(g);
    assert alignment + [] == alignment;
  }

  method AlignHunkLines(deleted: seq<Line>, inserted: seq<Line>) returns (alignment: seq<Kind>)
    ensures alignment == Alignment(deleted, inserted)
  {
    if |deleted| == 0 {
      return Repeat(Insert, |inserted|);
    }
    if |inserted| == 0 {
      return Repeat(Delete, |deleted|);
    }
    if ProductExceeds(|deleted| + 1, |inserted| + 1, MAX_HUNK_ALIGNMENT_MATRIX_CELLS) {
      var paired := Min(|deleted|, |inserted|);
      return Repeat(Pair, paired) + Repeat(Delete, |deleted| - paired) + Repeat(Insert, |inserted| - paired);
    }
    var table := FillTable(deleted, inserted);
    alignment := WalkTable(GridOf(deleted, inserted), |deleted|, |inserted|, table);
  }
}
