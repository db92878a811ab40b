/** Applying a batch one edit at a time, each at its original coordinates, against applying all of it at once. */
module EditApplication {
  import opened Basics
  import opened EditPositions
  import opened EditBatch

  // ----- Positions of a document -----

  /** The first offset, from `o` on, that is not before `pos`. */
  function OffsetFrom(doc: string, pos: Position, o: nat): (r: nat)
    requires o <= |doc|
    ensures o <= r <= |doc|
    decreases |doc| - o
  {
    if o == |doc| || !Before(PosAt(doc, o), pos) then o else OffsetFrom(doc, pos, o + 1)
  }

  function OffsetAt(doc: string, pos: Position): (r: nat)
    ensures r <= |doc|
  {
    OffsetFrom(doc, pos, 0)
  }

  /** The document has this position. */
  ghost predicate InText(doc: string, pos: Position) {
    exists o: nat :: o <= |doc| && PosAt(doc, o) == pos
  }

  lemma {:induction false} OffsetFromFinds(doc: string, o: nat, from: nat)
    requires from <= o <= |doc|
    ensures OffsetFrom(doc, PosAt(doc, o), from) == o
    decreases o - from
  {
    PosAtIsMonotone(doc, from, o);
    if from < o {
      OffsetFromFinds(doc, o, from + 1);
    }
  }

  lemma {:induction false} OffsetFromOrdered(doc: string, a: Position, b: Position, from: nat)
    requires !Before(b, a) && from <= |doc|
    ensures OffsetFrom(doc, a, from) <= OffsetFrom(doc, b, from)
    decreases |doc| - from
  {
    if from < |doc| && Before(PosAt(doc, from), a) {
      OffsetFromOrdered(doc, a, b, from + 1);
    }
  }

  // ----- One edit at a time -----

  function ApplyOne(doc: string, edit: Edit): string {
    var r := Normalized(edit.range);
    OffsetFromOrdered(doc, r.start, r.end, 0);
    Splice(doc, OffsetAt(doc, r.start), OffsetAt(doc, r.end), edit.text)
  }

  /** The document after the first `k` edits of `order`, each applied at its original coordinates. */
  function ApplyInOrder(doc: string, edits: seq<Edit>, order: seq<nat>, k: nat): string
    requires k <= |order| && forall m | 0 <= m < k :: order[m] < |edits|
  {
    if k == 0 then doc else ApplyOne(ApplyInOrder(doc, edits, order, k - 1), edits[order[k - 1]])
  }

  // ----- All at once -----

  /** What an edit replaces, in offsets of the original document. */
  datatype Span = Span(start: nat, end: nat, text: string)

  function SpanOf(doc: string, edit: Edit): (s: Span)
    ensures s.start <= s.end <= |doc|
  {
    var r := Normalized(edit.range);
    OffsetFromOrdered(doc, r.start, r.end, 0);
    Span(OffsetAt(doc, r.start), OffsetAt(doc, r.end), edit.text)
  }

  function SpansOf(doc: string, edits: seq<Edit>): (r: seq<Span>)
    ensures |r| == |edits| && forall k | 0 <= k < |r| :: r[k] == SpanOf(doc, edits[k])
  {
    if edits == [] then [] else [SpanOf(doc, edits[0])] + SpansOf(doc, edits[1..])
  }

  ghost predicate InDoc(doc: string, spans: seq<Span>) {
    forall k | 0 <= k < |spans| :: spans[k].start <= spans[k].end <= |doc|
  }

  predicate InsertsAt(s: Span, o: nat) {
    s.start == o && s.end == o
  }

  predicate ReplacesAt(s: Span, o: nat) {
    s.start == o && o < s.end
  }

  /** The texts inserted at `o`, in array order, from entry `i` on. */
  function InsertedAt(spans: seq<Span>, o: nat, i: nat): string
    requires i <= |spans|
    decreases |spans| - i
  {
    if i == |spans| then []
    else (if InsertsAt(spans[i], o) then spans[i].text else []) + InsertedAt(spans, o, i + 1)
  }

  /** The first entry, from `i` on, that replaces text starting at `o`; the length if there is none. */
  function ReplacementAt(spans: seq<Span>, o: nat, i: nat): (r: nat)
    requires i <= |spans|
    ensures i <= r <= |spans|
    ensures r < |spans| ==> ReplacesAt(spans[r], o)
    ensures forall k | i <= k < r :: !ReplacesAt(spans[k], o)
    decreases |spans| - i
  {
    if i == |spans| || ReplacesAt(spans[i], o) then i else ReplacementAt(spans, o, i + 1)
  }

  /** The edited document from the original offset `o` on: what is inserted at `o` comes first, in array
      order; then the replacement starting at `o`, which skips what it replaces; otherwise the
      original character. */
  function Simultaneous(doc: string, spans: seq<Span>, o: nat): string
    requires o <= |doc| && InDoc(doc, spans)
    decreases |doc| - o
  {
    var r := ReplacementAt(spans, o, 0);
    InsertedAt(spans, o, 0) +
    if r < |spans| then spans[r].text + Simultaneous(doc, spans, spans[r].end)
    else if o == |doc| then []
    else [doc[o]] + Simultaneous(doc, spans, o + 1)
  }

  // ----- The edits in the order they are applied -----

  /** An edit's span with its place in the batch. */
  datatype Placed = Placed(span: Span, index: nat)

  /** Where the last of the first `k` edits starts; the end of the document if there is none. */
  function Top(doc: string, d: seq<Placed>, k: nat): nat
    requires k <= |d|
  {
    if k == 0 then |doc| else d[k - 1].span.start
  }

  /** Edit `k` ends where the edit applied before it starts, or earlier. */
  predicate EndsBelow(doc: string, d: seq<Placed>, k: nat)
    requires k < |d|
  {
    d[k].span.start <= d[k].span.end <= Top(doc, d, k)
  }

  ghost predicate Descending(doc: string, d: seq<Placed>) {
    forall k | 0 <= k < |d| :: EndsBelow(doc, d, k)
  }

  lemma {:induction false} TopsDescend(doc: string, d: seq<Placed>, k: nat, m: nat)
    requires Descending(doc, d) && k <= m <= |d|
    ensures Top(doc, d, m) <= Top(doc, d, k)
    decreases m
  {
    if k < m {
      TopsDescend(doc, d, k, m - 1);
      assert EndsBelow(doc, d, m - 1);
    }
  }

  /** What the first `k` edits leave from the last one's start on. */
  function Rest(doc: string, d: seq<Placed>, k: nat): string
    requires k <= |d|
  {
    if k == 0 then []
    else d[k - 1].span.text + Slice(doc, d[k - 1].span.end, Top(doc, d, k - 1)) + Rest(doc, d, k - 1)
  }

  /** The original text from `o` to the last of the first `k` edits, and what these leave. */
  function Remaining(doc: string, d: seq<Placed>, o: nat, k: nat): string
    requires k <= |d|
  {
    Slice(doc, o, Top(doc, d, k)) + Rest(doc, d, k)
  }

  // ----- One at a time leaves an unchanged front -----

  /** Every coordinate of the batch exists in the document. */
  ghost predicate Located(doc: string, edits: seq<Edit>) {
    forall k | 0 <= k < |edits| ::
      InText(doc, Normalized(edits[k].range).start) && InText(doc, Normalized(edits[k].range).end)
  }

  /** `d` is the batch in the given order. */
  ghost predicate Places(doc: string, edits: seq<Edit>, order: seq<nat>, d: seq<Placed>) {
    && |d| == |order|
    && forall k | 0 <= k < |order| :: order[k] < |edits| && d[k] == Placed(SpanOf(doc, edits[order[k]]), order[k])
  }

  lemma {:induction false} OffsetInFront(doc: string, other: string, pos: Position, limit: nat)
    requires InText(doc, pos) && OffsetAt(doc, pos) <= limit <= |doc| && limit <= |other|
             && doc[..limit] == other[..limit]
    ensures OffsetAt(other, pos) == OffsetAt(doc, pos)
  {
    var o: nat :| o <= |doc| && PosAt(doc, o) == pos;
    OffsetFromFinds(doc, o, 0);
    assert doc[..o] == doc[..limit][..o] && other[..o] == other[..limit][..o];
    PosAtPrefix(doc, other, o);
    OffsetFromFinds(other, o, 0);
  }

  lemma {:induction false} ApplyInFront(doc: string, edit: Edit, limit: nat, rest: string)
    requires InText(doc, Normalized(edit.range).start) && InText(doc, Normalized(edit.range).end)
    requires SpanOf(doc, edit).end <= limit <= |doc|
    ensures var s := SpanOf(doc, edit);
            ApplyOne(doc[..limit] + rest, edit) == doc[..s.start] + (s.text + doc[s.end..limit] + rest)
  {
    var s := SpanOf(doc, edit);
    var other := doc[..limit] + rest;
    assert other[..limit] == doc[..limit];
    OffsetInFront(doc, other, Normalized(edit.range).start, limit);
    OffsetInFront(doc, other, Normalized(edit.range).end, limit);
    assert other[..s.start] == doc[..s.start];
    assert other[s.end..] == doc[s.end..limit] + rest;
  }

  lemma {:induction false} FrontStep(doc: string, edit: Edit, d: seq<Placed>, k: nat)
    requires InText(doc, Normalized(edit.range).start) && InText(doc, Normalized(edit.range).end)
    requires 0 < k <= |d| && d[k - 1].span == SpanOf(doc, edit)
    requires d[k - 1].span.end <= Top(doc, d, k - 1) <= |doc|
    ensures ApplyOne(Remaining(doc, d, 0, k - 1), edit) == Remaining(doc, d, 0, k)
  {
    var limit := Top(doc, d, k - 1);
    assert doc[..limit] == Slice(doc, 0, limit) && doc[..d[k - 1].span.start] == Slice(doc, 0, d[k - 1].span.start);
    ApplyInFront(doc, edit, limit, Rest(doc, d, k - 1));
  }

  lemma {:induction false} TopInside(doc: string, d: seq<Placed>, k: nat)
    requires Descending(doc, d) && k < |d|
    ensures d[k].span.end <= Top(doc, d, k) <= |doc|
  {
    TopsDescend(doc, d, 0, k);
    assert EndsBelow(doc, d, k);
  }

  lemma {:induction false} NothingApplied(doc: string, d: seq<Placed>)
    ensures Remaining(doc, d, 0, 0) == doc
  {
    assert Slice(doc, 0, |doc|) == doc;
  }

  /** After the first `k` edits the front of the document is still the original. */
  lemma {:induction false} FrontIsOriginal(doc: string, edits: seq<Edit>, order: seq<nat>, d: seq<Placed>, k: nat)
    requires Located(doc, edits) && Places(doc, edits, order, d) && Descending(doc, d) && k <= |order|
    ensures ApplyInOrder(doc, edits, order, k) == Remaining(doc, d, 0, k)
  {
    hide Remaining, Descending;
    if k == 0 {
      NothingApplied(doc, d);
    } else {
      FrontIsOriginal(doc, edits, order, d, k - 1);
      TopInside(doc, d, k - 1);
      FrontStep(doc, edits[order[k - 1]], d, k);
    }
  }

  // ----- What is left over is the simultaneous result -----

  /** The list holds every entry of the array once, insertions at one place in descending order. */
  ghost predicate Lists(spans: seq<Span>, d: seq<Placed>) {
    && (forall k | 0 <= k < |d| :: d[k].index < |spans| && spans[d[k].index] == d[k].span)
    && (forall i: nat | i < |spans| :: Listed(d, i))
    && (forall k, m | 0 <= k < m < |d| :: TieDescends(d[k], d[m]))
  }

  predicate TieDescends(a: Placed, b: Placed) {
    a.span.start == b.span.start && a.span.end == b.span.end ==> b.index < a.index
  }

  lemma {:induction false} IndexOrder(spans: seq<Span>, d: seq<Placed>, o: nat, k: nat, m: nat)
    requires Lists(spans, d) && k < |d| && m < |d| && InsertsAt(d[k].span, o) && InsertsAt(d[m].span, o)
    ensures k < m ==> d[m].index < d[k].index
  {
    assert k < m ==> TieDescends(d[k], d[m]);
  }

  ghost predicate Listed(d: seq<Placed>, i: nat) {
    exists k :: 0 <= k < |d| && d[k].index == i
  }

  lemma {:induction false} NoneInserted(spans: seq<Span>, o: nat, a: nat, b: nat)
    requires a <= b <= |spans| && forall i | a <= i < b :: !InsertsAt(spans[i], o)
    ensures InsertedAt(spans, o, a) == InsertedAt(spans, o, b)
    decreases b - a
  {
    if a < b {
      NoneInserted(spans, o, a + 1, b);
    }
  }

  /** The first `k` entries start at or after `o`, the others before. */
  ghost predicate Reached(doc: string, d: seq<Placed>, o: nat, k: nat) {
    && o <= |doc| && k <= |d|
    && o <= Top(doc, d, k)
    && (forall m | k <= m < |d| :: d[m].span.start < o)
  }

  /** How many of the first `k` entries remain once the insertions at `o` that end them are taken off. */
  function BeforeInserts(d: seq<Placed>, o: nat, k: nat): (j: nat)
    requires k <= |d|
    ensures j <= k
    ensures forall m | j <= m < k :: InsertsAt(d[m].span, o)
    ensures 0 < j ==> !InsertsAt(d[j - 1].span, o)
  {
    if 0 < k && InsertsAt(d[k - 1].span, o) then BeforeInserts(d, o, k - 1) else k
  }

  lemma {:induction false} TopBeforeInserts(doc: string, d: seq<Placed>, o: nat, k: nat)
    requires Descending(doc, d) && Reached(doc, d, o, k)
    ensures o <= Top(doc, d, BeforeInserts(d, o, k))
  {
    TopsDescend(doc, d, BeforeInserts(d, o, k), k);
  }

  /** An entry starting at `o` is among the first `k`, and only the last of those left after the
      insertions are taken off can be one. */
  lemma {:induction false} StartsAtListed(doc: string, d: seq<Placed>, o: nat, k: nat, p: nat)
    requires Descending(doc, d) && Reached(doc, d, o, k) && p < |d| && d[p].span.start == o
    ensures p < k && BeforeInserts(d, o, k) <= p + 1
  {
    var j := BeforeInserts(d, o, k);
    TopBeforeInserts(doc, d, o, k);
    assert EndsBelow(doc, d, p) && (0 < j ==> EndsBelow(doc, d, j - 1));
    if p + 1 < j {
      TopsDescend(doc, d, p + 1, j - 1);
    }
  }

  /** An insertion at `o` is among the entries taken off. */
  lemma {:induction false} InsertIsListed(doc: string, spans: seq<Span>, d: seq<Placed>, o: nat, k: nat, i: nat)
      returns (p: nat)
    requires Descending(doc, d) && Lists(spans, d) && Reached(doc, d, o, k)
    requires i < |spans| && InsertsAt(spans[i], o)
    ensures BeforeInserts(d, o, k) <= p < k && d[p].index == i
  {
    assert Listed(d, i);
    p :| 0 <= p < |d| && d[p].index == i;
    StartsAtListed(doc, d, o, k, p);
  }

  /** The array index from which on the insertions of entries `j..m` are all there are. */
  function FromIndex(spans: seq<Span>, d: seq<Placed>, j: nat, m: nat): nat
    requires j <= m <= |d|
  {
    if m == j then |spans| else d[m - 1].index
  }

  lemma {:induction false} NeighbourIndices(spans: seq<Span>, d: seq<Placed>, o: nat, k: nat, m: nat, p: nat)
    requires Lists(spans, d) && k <= |d| && BeforeInserts(d, o, k) < m <= k && BeforeInserts(d, o, k) <= p < k
    ensures p < m ==> d[m - 1].index <= d[p].index
    ensures d[p].index <= d[m - 1].index || FromIndex(spans, d, BeforeInserts(d, o, k), m - 1) <= d[p].index
  {
    IndexOrder(spans, d, o, p, m - 1);
    IndexOrder(spans, d, o, m - 1, p);
    if m - 1 > BeforeInserts(d, o, k) {
      IndexOrder(spans, d, o, p, m - 2);
    }
  }

  lemma {:induction false} NoInsertBetween(doc: string, spans: seq<Span>, d: seq<Placed>, o: nat, k: nat, m: nat,
                                           i: nat)
    requires Descending(doc, d) && Lists(spans, d) && Reached(doc, d, o, k)
    requires BeforeInserts(d, o, k) < m <= k
    requires d[m - 1].index < i < FromIndex(spans, d, BeforeInserts(d, o, k), m - 1) && i < |spans|
    ensures !InsertsAt(spans[i], o)
  {
    if InsertsAt(spans[i], o) {
      var p := InsertIsListed(doc, spans, d, o, k, i);
      NeighbourIndices(spans, d, o, k, m, p);
    }
  }

  /** Between two neighbouring insertions of the list there is no other one in the array. */
  lemma {:induction false} NextInsert(doc: string, spans: seq<Span>, d: seq<Placed>, o: nat, k: nat, m: nat)
    requires Descending(doc, d) && Lists(spans, d) && Reached(doc, d, o, k)
    requires BeforeInserts(d, o, k) < m <= k
    ensures var to := FromIndex(spans, d, BeforeInserts(d, o, k), m - 1);
            d[m - 1].index < to <= |spans| && InsertedAt(spans, o, d[m - 1].index + 1) == InsertedAt(spans, o, to)
  {
    var j := BeforeInserts(d, o, k);
    var to := FromIndex(spans, d, j, m - 1);
    if m - 1 > j {
      IndexOrder(spans, d, o, m - 2, m - 1);
    }
    forall i: nat | d[m - 1].index + 1 <= i < to ensures !InsertsAt(spans[i], o) {
      NoInsertBetween(doc, spans, d, o, k, m, i);
    }
    NoneInserted(spans, o, d[m - 1].index + 1, to);
  }

  lemma {:induction false} InsertsSpelled(doc: string, spans: seq<Span>, d: seq<Placed>, o: nat, k: nat, m: nat)
    requires Descending(doc, d) && Lists(spans, d) && Reached(doc, d, o, k)
    requires BeforeInserts(d, o, k) <= m <= k
    ensures var j := BeforeInserts(d, o, k);
            FromIndex(spans, d, j, m) <= |spans|
            && Remaining(doc, d, o, m) == InsertedAt(spans, o, FromIndex(spans, d, j, m)) + Remaining(doc, d, o, j)
  {
    hide Remaining;
    var j := BeforeInserts(d, o, k);
    if m > j {
      InsertsSpelled(doc, spans, d, o, k, m - 1);
      NextInsert(doc, spans, d, o, k, m);
      OneInsert(doc, d, o, m);
      assert InsertedAt(spans, o, d[m - 1].index)
          == d[m - 1].span.text + InsertedAt(spans, o, FromIndex(spans, d, j, m - 1));
      Associate(d[m - 1].span.text, InsertedAt(spans, o, FromIndex(spans, d, j, m - 1)), Remaining(doc, d, o, j));
    }
  }

  lemma {:induction false} OneInsert(doc: string, d: seq<Placed>, o: nat, m: nat)
    requires 0 < m <= |d| && o <= |doc| && InsertsAt(d[m - 1].span, o)
    ensures Remaining(doc, d, o, m) == d[m - 1].span.text + Remaining(doc, d, o, m - 1)
  {
    assert Slice(doc, o, o) == [];
  }

  lemma {:induction false} AllInsertsSpelled(doc: string, spans: seq<Span>, d: seq<Placed>, o: nat, k: nat)
    requires Descending(doc, d) && Lists(spans, d) && Reached(doc, d, o, k)
    ensures Remaining(doc, d, o, k) == InsertedAt(spans, o, 0) + Remaining(doc, d, o, BeforeInserts(d, o, k))
  {
    var j := BeforeInserts(d, o, k);
    InsertsSpelled(doc, spans, d, o, k, k);
    var from := FromIndex(spans, d, j, k);
    forall i: nat | i < from ensures !InsertsAt(spans[i], o) {
      if InsertsAt(spans[i], o) {
        var p := InsertIsListed(doc, spans, d, o, k, i);
        NeighbourIndices(spans, d, o, k, k, p);
      }
    }
    NoneInserted(spans, o, 0, from);
  }

  /** A replacement starting at `o` is the entry right before the insertions there. */
  lemma {:induction false} ReplacementIsListed(doc: string, spans: seq<Span>, d: seq<Placed>, o: nat, k: nat, i: nat)
    requires Descending(doc, d) && Lists(spans, d) && Reached(doc, d, o, k)
    requires i < |spans| && ReplacesAt(spans[i], o)
    ensures var j := BeforeInserts(d, o, k); 0 < j && d[j - 1].index == i
  {
    assert Listed(d, i);
    var p :| 0 <= p < |d| && d[p].index == i;
    StartsAtListed(doc, d, o, k, p);
    assert !InsertsAt(d[p].span, o);
  }

  /** With no replacement at `o`, the remaining entries start later. */
  lemma {:induction false} NothingAt(doc: string, spans: seq<Span>, d: seq<Placed>, o: nat, k: nat)
    requires Descending(doc, d) && Lists(spans, d) && Reached(doc, d, o, k)
    requires ReplacementAt(spans, o, 0) == |spans|
    ensures var j := BeforeInserts(d, o, k);
            (j == 0 || o < Top(doc, d, j)) && (o < |doc| ==> Reached(doc, d, o + 1, j))
  {
    var j := BeforeInserts(d, o, k);
    TopBeforeInserts(doc, d, o, k);
    if 0 < j {
      assert EndsBelow(doc, d, j - 1);
      assert !ReplacesAt(spans[d[j - 1].index], o) && !InsertsAt(d[j - 1].span, o);
    }
  }

  lemma {:induction false} AfterReplacement(doc: string, d: seq<Placed>, o: nat, j: nat)
    requires Descending(doc, d) && 0 < j <= |d| && ReplacesAt(d[j - 1].span, o)
    ensures Reached(doc, d, d[j - 1].span.end, j - 1)
    ensures Remaining(doc, d, o, j) == d[j - 1].span.text + Remaining(doc, d, d[j - 1].span.end, j - 1)
  {
    var end := d[j - 1].span.end;
    TopsDescend(doc, d, 0, j - 1);
    assert EndsBelow(doc, d, j - 1);
    forall m | j - 1 <= m < |d| ensures d[m].span.start < end {
      TopsDescend(doc, d, j, m + 1);
    }
    assert Slice(doc, o, o) == [];
  }

  lemma {:induction false} NextCharacter(doc: string, d: seq<Placed>, o: nat, j: nat)
    requires j <= |d| && o < |doc| && o < Top(doc, d, j) <= |doc|
    ensures Remaining(doc, d, o, j) == [doc[o]] + Remaining(doc, d, o + 1, j)
  {
  }

  lemma {:induction false} WithReplacement(doc: string, spans: seq<Span>, d: seq<Placed>, o: nat, k: nat)
    requires Descending(doc, d) && Lists(spans, d) && Reached(doc, d, o, k)
    requires ReplacementAt(spans, o, 0) < |spans|
    ensures var r, j := ReplacementAt(spans, o, 0), BeforeInserts(d, o, k);
            0 < j && Reached(doc, d, spans[r].end, j - 1)
            && Remaining(doc, d, o, j) == spans[r].text + Remaining(doc, d, spans[r].end, j - 1)
  {
    ReplacementIsListed(doc, spans, d, o, k, ReplacementAt(spans, o, 0));
    AfterReplacement(doc, d, o, BeforeInserts(d, o, k));
  }

  lemma {:induction false} WithoutReplacement(doc: string, spans: seq<Span>, d: seq<Placed>, o: nat, k: nat)
    requires Descending(doc, d) && Lists(spans, d) && Reached(doc, d, o, k)
    requires ReplacementAt(spans, o, 0) == |spans|
    ensures var j := BeforeInserts(d, o, k);
            if o == |doc| then Remaining(doc, d, o, j) == []
            else Reached(doc, d, o + 1, j) && Remaining(doc, d, o, j) == [doc[o]] + Remaining(doc, d, o + 1, j)
  {
    var j := BeforeInserts(d, o, k);
    NothingAt(doc, spans, d, o, k);
    TopsDescend(doc, d, 0, j);
    if o < |doc| {
      NextCharacter(doc, d, o, j);
    }
  }

  lemma {:induction false} RemainingIsSimultaneous(doc: string, spans: seq<Span>, d: seq<Placed>, o: nat, k: nat)
    requires Descending(doc, d) && Lists(spans, d) && Reached(doc, d, o, k) && InDoc(doc, spans)
    ensures Remaining(doc, d, o, k) == Simultaneous(doc, spans, o)
    decreases |doc| - o
  {
    AllInsertsSpelled(doc, spans, d, o, k);
    var j := BeforeInserts(d, o, k);
    var r := ReplacementAt(spans, o, 0);
    if r < |spans| {
      WithReplacement(doc, spans, d, o, k);
      RemainingIsSimultaneous(doc, spans, d, spans[r].end, j - 1);
    } else {
      WithoutReplacement(doc, spans, d, o, k);
      if o < |doc| {
        RemainingIsSimultaneous(doc, spans, d, o + 1, j);
      }
    }
  }

  // ----- The batch theorem -----

  lemma {:induction false} OffsetsKeepOrder(doc: string, a: Position, b: Position)
    requires InText(doc, a) && InText(doc, b)
    ensures Before(a, b) <==> OffsetAt(doc, a) < OffsetAt(doc, b)
    ensures a == b <==> OffsetAt(doc, a) == OffsetAt(doc, b)
  {
    var oa: nat :| oa <= |doc| && PosAt(doc, oa) == a;
    var ob: nat :| ob <= |doc| && PosAt(doc, ob) == b;
    OffsetFromFinds(doc, oa, 0);
    OffsetFromFinds(doc, ob, 0);
    PosAtIsMonotone(doc, oa, ob);
  }

  // ----- What it is to meet -----

  /** Some character of the document lies in both ranges. */
  ghost predicate SharesCharacter(doc: string, a: Range, b: Range) {
    exists o: nat :: o < |doc| && InRange(doc, a, o) && InRange(doc, b, o)
  }

  predicate InRange(doc: string, r: Range, o: nat) {
    OffsetAt(doc, Normalized(r).start) <= o < OffsetAt(doc, Normalized(r).end)
  }

  /** `a` is empty and lies strictly inside `b`. */
  predicate InsertionInside(doc: string, a: Range, b: Range) {
    var at := OffsetAt(doc, Normalized(a).start);
    at == OffsetAt(doc, Normalized(a).end) && OffsetAt(doc, Normalized(b).start) < at < OffsetAt(doc, Normalized(b).end)
  }

  ghost predicate HasRange(doc: string, r: Range) {
    InText(doc, Normalized(r).start) && InText(doc, Normalized(r).end)
  }

  /** Two ranges of the document meet exactly when they share a character or one is an insertion strictly
      inside the other. */
  lemma {:induction false} MeetOverOffsets(doc: string, a: Range, b: Range)
    requires HasRange(doc, a) && HasRange(doc, b)
    ensures Meet(a, b) <==> SharesCharacter(doc, a, b) || InsertionInside(doc, a, b) || InsertionInside(doc, b, a)
    ensures (Meet(a, b) <==> SharesCharacter(doc, a, b)) <==> !InsertionInside(doc, a, b) && !InsertionInside(doc, b, a)
  {
    var p, q := Normalized(a), Normalized(b);
    OffsetsKeepOrder(doc, p.start, q.end);
    OffsetsKeepOrder(doc, q.start, p.end);
    OffsetsKeepOrder(doc, p.end, p.start);
    OffsetsKeepOrder(doc, q.end, q.start);
    var s, e, t, f := OffsetAt(doc, p.start), OffsetAt(doc, p.end), OffsetAt(doc, q.start), OffsetAt(doc, q.end);
    hide OffsetAt, InText;
    if s < f && t < e && s < e && t < f {
      var o := if s < t then t else s;
      assert InRange(doc, a, o) && InRange(doc, b, o);
    }
  }

  /** An insertion inside a replaced word meets it without sharing a character. */
  lemma {:induction false} MeetingMayShareNothing()
    ensures var a, b := Range(Position(0, 1), Position(0, 1)), Range(Position(0, 0), Position(0, 2));
            HasRange("ab", a) && HasRange("ab", b) && Meet(a, b) && !SharesCharacter("ab", a, b)
  {
    var doc := "ab";
    var a, b := Range(Position(0, 1), Position(0, 1)), Range(Position(0, 0), Position(0, 2));
    assert PosAt(doc, 0) == Position(0, 0);
    assert doc[..1] == "a" && PosAt(doc, 1) == Position(0, 1);
    assert doc[..2] == "ab" && PosAt(doc, 2) == Position(0, 2);
    MeetOverOffsets(doc, a, b);
  }

  function Ranges(edits: seq<Edit>): (r: seq<Range>)
    ensures |r| == |edits| && forall k | 0 <= k < |r| :: r[k] == edits[k].range
  {
    if edits == [] then [] else [edits[0].range] + Ranges(edits[1..])
  }

  function Place(doc: string, edits: seq<Edit>, order: seq<nat>): (d: seq<Placed>)
    requires forall k | 0 <= k < |order| :: order[k] < |edits|
    ensures Places(doc, edits, order, d)
  {
    if order == [] then []
    else [Placed(SpanOf(doc, edits[order[0]]), order[0])] + Place(doc, edits, order[1..])
  }

  lemma {:induction false} NeighboursApart(ranges: seq<Range>, order: seq<nat>, k: nat)
    requires IsOrder(ranges, order) && !AnyPairMeets(ranges) && 0 < k < |order|
    ensures !Before(Normalized(ranges[order[k - 1]]).start, Normalized(ranges[order[k]]).end)
  {
    AdjacentDecidesAllPairs(ranges, order);
    assert !EndsPast(ranges, order, k);
  }

  lemma {:induction false} BatchDescends(doc: string, edits: seq<Edit>, order: seq<nat>, d: seq<Placed>)
    requires Located(doc, edits) && IsOrder(Ranges(edits), order) && Places(doc, edits, order, d)
    requires !AnyPairMeets(Ranges(edits))
    ensures Descending(doc, d)
  {
    forall k | 0 <= k < |d| ensures EndsBelow(doc, d, k) {
      if 0 < k {
        NeighboursApart(Ranges(edits), order, k);
        OffsetsKeepOrder(doc, Normalized(edits[order[k - 1]].range).start, Normalized(edits[order[k]].range).end);
      }
    }
  }

  lemma {:induction false} TiesDescend(doc: string, edits: seq<Edit>, order: seq<nat>, d: seq<Placed>, k: nat, m: nat)
    requires Located(doc, edits) && IsOrder(Ranges(edits), order) && Places(doc, edits, order, d)
    requires k < m < |d|
    ensures TieDescends(d[k], d[m])
  {
    var a, b := Normalized(edits[order[k]].range), Normalized(edits[order[m]].range);
    OffsetsKeepOrder(doc, a.start, b.start);
    OffsetsKeepOrder(doc, a.end, b.end);
    assert Precedes(Ranges(edits), order[k], order[m]);
  }

  lemma {:induction false} BatchLists(doc: string, edits: seq<Edit>, order: seq<nat>, d: seq<Placed>)
    requires Located(doc, edits) && IsOrder(Ranges(edits), order) && Places(doc, edits, order, d)
    ensures Lists(SpansOf(doc, edits), d)
  {
    forall i: nat | i < |edits| ensures Listed(d, i) {
      assert i in order;
      var k :| 0 <= k < |order| && order[k] == i;
      assert d[k].index == i;
    }
    forall k, m | 0 <= k < m < |d| ensures TieDescends(d[k], d[m]) {
      TiesDescend(doc, edits, order, d, k, m);
    }
  }

  lemma {:induction false} PlaceAll(doc: string, edits: seq<Edit>, order: seq<nat>)
    requires IsOrder(Ranges(edits), order)
    ensures forall k | 0 <= k < |order| :: order[k] < |edits|
    ensures var d := Place(doc, edits, order);
            Places(doc, edits, order, d) && |d| == |order| && Reached(doc, d, 0, |order|)
  {
  }

  /** A batch that passes the overlap test, applied one edit at a time in the computed order, each at
      its original coordinates, gives the simultaneous result. */
  lemma {:induction false} BatchAppliesSimultaneously(doc: string, edits: seq<Edit>, order: seq<nat>)
    requires Located(doc, edits) && IsOrder(Ranges(edits), order) && !AnyPairMeets(Ranges(edits))
    ensures ApplyInOrder(doc, edits, order, |order|) == Simultaneous(doc, SpansOf(doc, edits), 0)
  {
    PlaceAll(doc, edits, order);
    hide Simultaneous, Descending, Lists, Located, Places, Place, IsOrder, AnyPairMeets, Reached;
    var spans := SpansOf(doc, edits);
    var d := Place(doc, edits, order);
    BatchDescends(doc, edits, order, d);
    BatchLists(doc, edits, order, d);
    FrontIsOriginal(doc, edits, order, d, |order|);
    RemainingIsSimultaneous(doc, spans, d, 0, |order|);
  }
}
