/** Branch review markers: which hunks of a diff are reviewed, changed since or noted.  One pass over
    the stored entries gives for every hunk what the per-hunk queries give. */
module ReviewMarkers {
  import opened Basics
  import CompareRows

  datatype MarkerStatus = Unreviewed | Reviewed | ChangedSinceReviewed

  datatype NoteScope = FileScope | HunkScope

  type Int32 = x: int | -0x8000_0000 <= x < 0x8000_0000

  /** A hunk as it is stored: where it was and a hash of what it held. */
  datatype HunkIdentity = HunkIdentity(path: string, oldStart: Int32, oldCount: Int32, newStart: Int32,
                                       newCount: Int32, contentHash: nat)

  datatype FileEntry = FileEntry(path: string, reviewedDiffFingerprint: nat)

  datatype Note = Note(scope: NoteScope, path: string, hunkIdentity: Option<HunkIdentity>, text: string)

  datatype TargetState = TargetState(target: string, reviewedFiles: seq<FileEntry>, reviewedHunks: seq<HunkIdentity>,
                                     notes: seq<Note>)

  /** A diff as the review sees it.  The content hashes and the fingerprint are uninterpreted. */
  datatype Diff = Diff(rows: seq<CompareRows.CompareRow>, hunks: seq<CompareRows.CompareHunk>, hashes: seq<nat>,
                       fingerprint: nat)

  /** One hash for each hunk, and line numbers that fit the stored integers. */
  predicate Fits(d: Diff) {
    && |d.hashes| == |d.hunks|
    && forall r | 0 <= r < |d.rows| :: d.rows[r].leftLine < 0x8000_0000 && d.rows[r].rightLine < 0x8000_0000
  }

  type Model = d: Diff | Fits(d) witness Diff([], [], [], 0)

  datatype Marker = Marker(status: MarkerStatus, hasNote: bool)

  // ----- The key of a hunk -----

  /** The lowest and highest line seen, if any. */
  datatype LineRange = NoLines | Lines(low: nat, high: nat)

  function Widen(range: LineRange, line: nat): LineRange {
    if line == 0 then range
    else if range.NoLines? then Lines(line, line)
    else Lines(Min(range.low, line), Max(range.high, line))
  }

  function OldRange(rows: seq<CompareRows.CompareRow>, begin: nat, end: nat): LineRange
    requires begin <= end
  {
    if begin == end then NoLines
    else Widen(OldRange(rows, begin, end - 1), if end - 1 < |rows| then rows[end - 1].leftLine else 0)
  }

  function NewRange(rows: seq<CompareRows.CompareRow>, begin: nat, end: nat): LineRange
    requires begin <= end
  {
    if begin == end then NoLines
    else Widen(NewRange(rows, begin, end - 1), if end - 1 < |rows| then rows[end - 1].rightLine else 0)
  }

  /** A range that holds lines of the rows, if it holds any. */
  ghost predicate OldFrom(range: LineRange, rows: seq<CompareRows.CompareRow>, begin: nat, end: nat) {
    range.Lines? ==> 0 < range.low <= range.high
                     && (exists r: nat :: begin <= r < end && r < |rows| && rows[r].leftLine == range.low)
                     && (exists r: nat :: begin <= r < end && r < |rows| && rows[r].leftLine == range.high)
  }

  ghost predicate NewFrom(range: LineRange, rows: seq<CompareRows.CompareRow>, begin: nat, end: nat) {
    range.Lines? ==> 0 < range.low <= range.high
                     && (exists r: nat :: begin <= r < end && r < |rows| && rows[r].rightLine == range.low)
                     && (exists r: nat :: begin <= r < end && r < |rows| && rows[r].rightLine == range.high)
  }

  lemma {:induction false} OldRangeFrom(rows: seq<CompareRows.CompareRow>, begin: nat, end: nat)
    requires begin <= end
    ensures OldFrom(OldRange(rows, begin, end), rows, begin, end)
    ensures (exists r: nat :: begin <= r < end && r < |rows| && rows[r].leftLine != 0)
            ==> OldRange(rows, begin, end).Lines?
    decreases end
  {
    if begin < end {
      OldRangeFrom(rows, begin, end - 1);
    }
  }

  lemma {:induction false} NewRangeFrom(rows: seq<CompareRows.CompareRow>, begin: nat, end: nat)
    requires begin <= end
    ensures NewFrom(NewRange(rows, begin, end), rows, begin, end)
    ensures (exists r: nat :: begin <= r < end && r < |rows| && rows[r].rightLine != 0)
            ==> NewRange(rows, begin, end).Lines?
    decreases end
  {
    if begin < end {
      NewRangeFrom(rows, begin, end - 1);
    }
  }

  function StartOf(range: LineRange): nat { if range.NoLines? then 0 else range.low }

  function CountOf(range: LineRange): int { if range.NoLines? then 0 else range.high - range.low + 1 }

  datatype ContentKey = ContentKey(oldStart: int, oldCount: int, newStart: int, newCount: int, contentHash: nat)

  function HunkEnd(hunk: CompareRows.CompareHunk): nat {
    if hunk.startRow <= hunk.endRow then hunk.endRow + 1 else hunk.startRow
  }

  function KeyOf(d: Model, h: nat): ContentKey
    requires h < |d.hunks|
  {
    var oldLines := OldRange(d.rows, d.hunks[h].startRow, HunkEnd(d.hunks[h]));
    var newLines := NewRange(d.rows, d.hunks[h].startRow, HunkEnd(d.hunks[h]));
    ContentKey(StartOf(oldLines), CountOf(oldLines), StartOf(newLines), CountOf(newLines), d.hashes[h])
  }

  /** A hunk's old and new start packed into 64 bits. */
  function PositionKey(oldStart: int, newStart: int): nat {
    (oldStart % 0x1_0000_0000) * 0x1_0000_0000 + newStart % 0x1_0000_0000
  }

  lemma {:induction false} Unsigned(a: Int32)
    ensures a % 0x1_0000_0000 == if a < 0 then a + 0x1_0000_0000 else a
  {
  }

  lemma {:induction false} PositionKeyIsInjective(a: Int32, b: Int32, c: Int32, d: Int32)
    ensures PositionKey(a, b) == PositionKey(c, d) <==> a == c && b == d
  {
    Unsigned(a);
    Unsigned(b);
    Unsigned(c);
    Unsigned(d);
  }

  predicate SamePosition(key: ContentKey, identity: HunkIdentity) {
    key.oldStart == identity.oldStart && key.newStart == identity.newStart
  }

  predicate ContentKeysEqual(key: ContentKey, identity: HunkIdentity) {
    && key.oldStart == identity.oldStart && key.oldCount == identity.oldCount
    && key.newStart == identity.newStart && key.newCount == identity.newCount
    && key.contentHash == identity.contentHash
  }

  // ----- Positions are unique -----

  ghost predicate UniquePositions(d: Model) {
    forall g, h | 0 <= g < h < |d.hunks| ::
      !(KeyOf(d, g).oldStart == KeyOf(d, h).oldStart && KeyOf(d, g).newStart == KeyOf(d, h).newStart)
  }

  lemma {:induction false} LeftCountsGrow(rows: seq<CompareRows.CompareRow>, a: nat, b: nat)
    requires a <= b <= |rows|
    ensures |CompareRows.LeftTexts(rows[..a])| <= |CompareRows.LeftTexts(rows[..b])|
    decreases b
  {
    if a < b {
      LeftCountsGrow(rows, a, b - 1);
      assert rows[..b][..b - 1] == rows[..b - 1];
    }
  }

  lemma {:induction false} LeftNumberAt(rows: seq<CompareRows.CompareRow>, r: nat, n: nat)
    requires r < n <= |rows| && CompareRows.LeftNumbered(rows[..n]) && rows[r].leftLine != 0
    ensures rows[r].leftLine == |CompareRows.LeftTexts(rows[..r + 1])| == |CompareRows.LeftTexts(rows[..r])| + 1
    decreases n
  {
    assert rows[..n][..n - 1] == rows[..n - 1];
    if r < n - 1 {
      LeftNumberAt(rows, r, n - 1);
    }
  }

  /** No two rows bear the same left line. */
  lemma {:induction false} LeftLinesDiffer(rows: seq<CompareRows.CompareRow>, r: nat, q: nat)
    requires CompareRows.LeftNumbered(rows) && r < q < |rows| && rows[r].leftLine != 0 && rows[q].leftLine != 0
    ensures rows[r].leftLine < rows[q].leftLine
  {
    assert rows[..|rows|] == rows;
    LeftNumberAt(rows, r, |rows|);
    LeftNumberAt(rows, q, |rows|);
    LeftCountsGrow(rows, r + 1, q);
  }

  lemma {:induction false} RightCountsGrow(rows: seq<CompareRows.CompareRow>, a: nat, b: nat)
    requires a <= b <= |rows|
    ensures |CompareRows.RightTexts(rows[..a])| <= |CompareRows.RightTexts(rows[..b])|
    decreases b
  {
    if a < b {
      RightCountsGrow(rows, a, b - 1);
      assert rows[..b][..b - 1] == rows[..b - 1];
    }
  }

  lemma {:induction false} RightNumberAt(rows: seq<CompareRows.CompareRow>, r: nat, n: nat)
    requires r < n <= |rows| && CompareRows.RightNumbered(rows[..n]) && rows[r].rightLine != 0
    ensures rows[r].rightLine == |CompareRows.RightTexts(rows[..r + 1])| == |CompareRows.RightTexts(rows[..r])| + 1
    decreases n
  {
    assert rows[..n][..n - 1] == rows[..n - 1];
    if r < n - 1 {
      RightNumberAt(rows, r, n - 1);
    }
  }

  lemma {:induction false} RightLinesDiffer(rows: seq<CompareRows.CompareRow>, r: nat, q: nat)
    requires CompareRows.RightNumbered(rows) && r < q < |rows| && rows[r].rightLine != 0 && rows[q].rightLine != 0
    ensures rows[r].rightLine < rows[q].rightLine
  {
    assert rows[..|rows|] == rows;
    RightNumberAt(rows, r, |rows|);
    RightNumberAt(rows, q, |rows|);
    RightCountsGrow(rows, r + 1, q);
  }

  /** What a model the compare builder makes has: numbered rows that all bear a line, and hunks in order. */
  ghost predicate Built(d: Model) {
    && CompareRows.LeftNumbered(d.rows) && CompareRows.RightNumbered(d.rows)
    && CompareRows.AllBear(d.rows)
    && CompareRows.Placed(d.rows, d.hunks)
  }

  lemma {:induction false} HunksWithOldDiffer(d: Model, g: nat, h: nat)
    requires Built(d) && g < h < |d.hunks| && KeyOf(d, g).oldStart != 0 && KeyOf(d, h).oldStart != 0
    ensures KeyOf(d, g).oldStart != KeyOf(d, h).oldStart
  {
    CompareRows.HunksAscend(d.rows, d.hunks, g, h);
    OldRangeFrom(d.rows, d.hunks[g].startRow, HunkEnd(d.hunks[g]));
    OldRangeFrom(d.rows, d.hunks[h].startRow, HunkEnd(d.hunks[h]));
    assert CompareRows.HunkShaped(d.hunks[g], g, |d.rows|) && CompareRows.HunkShaped(d.hunks[h], h, |d.rows|);
    var r: nat :| d.hunks[g].startRow <= r < HunkEnd(d.hunks[g]) && r < |d.rows|
        && d.rows[r].leftLine == KeyOf(d, g).oldStart;
    var q: nat :| d.hunks[h].startRow <= q < HunkEnd(d.hunks[h]) && q < |d.rows|
        && d.rows[q].leftLine == KeyOf(d, h).oldStart;
    LeftLinesDiffer(d.rows, r, q);
  }

  lemma {:induction false} HunksWithNewDiffer(d: Model, g: nat, h: nat)
    requires Built(d) && g < h < |d.hunks| && KeyOf(d, g).newStart != 0 && KeyOf(d, h).newStart != 0
    ensures KeyOf(d, g).newStart != KeyOf(d, h).newStart
  {
    CompareRows.HunksAscend(d.rows, d.hunks, g, h);
    NewRangeFrom(d.rows, d.hunks[g].startRow, HunkEnd(d.hunks[g]));
    NewRangeFrom(d.rows, d.hunks[h].startRow, HunkEnd(d.hunks[h]));
    assert CompareRows.HunkShaped(d.hunks[g], g, |d.rows|) && CompareRows.HunkShaped(d.hunks[h], h, |d.rows|);
    var r: nat :| d.hunks[g].startRow <= r < HunkEnd(d.hunks[g]) && r < |d.rows|
        && d.rows[r].rightLine == KeyOf(d, g).newStart;
    var q: nat :| d.hunks[h].startRow <= q < HunkEnd(d.hunks[h]) && q < |d.rows|
        && d.rows[q].rightLine == KeyOf(d, h).newStart;
    RightLinesDiffer(d.rows, r, q);
  }

  lemma {:induction false} HunkHasLines(d: Model, h: nat)
    requires Built(d) && h < |d.hunks|
    ensures KeyOf(d, h).oldStart != 0 || KeyOf(d, h).newStart != 0
  {
    assert CompareRows.HunkShaped(d.hunks[h], h, |d.rows|);
    var r := d.hunks[h].startRow;
    assert CompareRows.BearsAsKind(d.rows[r]);
    OldRangeFrom(d.rows, d.hunks[h].startRow, HunkEnd(d.hunks[h]));
    NewRangeFrom(d.rows, d.hunks[h].startRow, HunkEnd(d.hunks[h]));
  }

  /** No two hunks of a model share a position. */
  lemma {:induction false} PositionsAreUnique(d: Model)
    requires Built(d)
    ensures UniquePositions(d)
  {
    forall g, h | 0 <= g < h < |d.hunks|
      ensures !(KeyOf(d, g).oldStart == KeyOf(d, h).oldStart && KeyOf(d, g).newStart == KeyOf(d, h).newStart) {
      HunkHasLines(d, g);
      if KeyOf(d, g).oldStart != 0 && KeyOf(d, h).oldStart != 0 {
        HunksWithOldDiffer(d, g, h);
      }
      if KeyOf(d, g).newStart != 0 && KeyOf(d, h).newStart != 0 {
        HunksWithNewDiffer(d, g, h);
      }
    }
  }

  /** Every model the compare builder makes is such a model. */
  lemma {:induction false} BuilderModelsAreBuilt(left: string, right: string, ignoreWhitespace: bool, d: Model)
    requires var b := CompareRows.BuildOf(left, right, ignoreWhitespace); d.rows == b.rows && d.hunks == b.hunks
    ensures Built(d)
  {
    CompareRows.RowsRebuildBothSides(left, right, ignoreWhitespace);
    CompareRows.BuildIsPlaced(left, right, ignoreWhitespace);
    CompareRows.BuildBears(left, right, ignoreWhitespace);
  }

  // ----- The slow queries -----

  function IdentityAt(d: Model, h: int, path: string): HunkIdentity
  {
    if h < 0 || |d.hunks| <= h then HunkIdentity(path, 0, 0, 0, 0, 0)
    else
      KeyInRange(d, h);
      var key := KeyOf(d, h);
      HunkIdentity(path, key.oldStart, key.oldCount, key.newStart, key.newCount, key.contentHash)
  }

  lemma {:induction false} KeyInRange(d: Model, h: nat)
    requires h < |d.hunks|
    ensures var key := KeyOf(d, h);
            && 0 <= key.oldStart < 0x8000_0000 && 0 <= key.newStart < 0x8000_0000
            && 0 <= key.oldCount < 0x8000_0000 && 0 <= key.newCount < 0x8000_0000
  {
    OldRangeFrom(d.rows, d.hunks[h].startRow, HunkEnd(d.hunks[h]));
    NewRangeFrom(d.rows, d.hunks[h].startRow, HunkEnd(d.hunks[h]));
  }

  /** What the stored hunk entries, from `k` on, say of a hunk: the first at its position decides. */
  function EntriesStatus(entries: seq<HunkIdentity>, current: HunkIdentity, k: nat): Option<MarkerStatus>
    requires k <= |entries|
    decreases |entries| - k
  {
    if k == |entries| then None
    else if entries[k].path != current.path then EntriesStatus(entries, current, k + 1)
    else if entries[k] == current then Some(Reviewed)
    else if entries[k].oldStart == current.oldStart
        && entries[k].newStart == current.newStart then Some(ChangedSinceReviewed)
    else EntriesStatus(entries, current, k + 1)
  }

  /** The file's entry: the first with its path. */
  function FileEntryFrom(files: seq<FileEntry>, path: string, k: nat): Option<FileEntry>
    requires k <= |files|
    decreases |files| - k
  {
    if k == |files| then None
    else if files[k].path == path then Some(files[k])
    else FileEntryFrom(files, path, k + 1)
  }

  predicate FileDiffMoved(entry: FileEntry, d: Option<Model>) {
    d.Some? && entry.reviewedDiffFingerprint != 0 && entry.reviewedDiffFingerprint != d.value.fingerprint
  }

  /** A stored entry of the file sits at a hunk's position with different content. */
  ghost predicate Moved(entries: seq<HunkIdentity>, path: string, d: Model, k: nat, h: nat) {
    && k < |entries| && h < |d.hunks| && entries[k].path == path
    && SamePosition(KeyOf(d, h), entries[k]) && !ContentKeysEqual(KeyOf(d, h), entries[k])
  }

  ghost predicate AnyMoved(entries: seq<HunkIdentity>, path: string, d: Model) {
    exists k, h :: Moved(entries, path, d, k, h)
  }

  ghost function FileStatus(state: Option<TargetState>, path: string, d: Option<Model>): MarkerStatus {
    if state.None? then Unreviewed
    else
      match FileEntryFrom(state.value.reviewedFiles, path, 0)
      case None => Unreviewed
      case Some(entry) =>
        if FileDiffMoved(entry, d) || (d.Some? && AnyMoved(state.value.reviewedHunks, path,
                                                           d.value)) then ChangedSinceReviewed
        else Reviewed
  }

  ghost function HunkStatus(state: Option<TargetState>, path: string, d: Option<Model>, h: int): MarkerStatus {
    if d.None? || h < 0 || state.None? then Unreviewed
    else
      match EntriesStatus(state.value.reviewedHunks, IdentityAt(d.value, h, path), 0)
      case Some(status) => status
      case None => FileStatus(state, path, d)
  }

  /** The text of the first note of the scope on the file or the hunk. */
  function NoteFrom(notes: seq<Note>, scope: NoteScope, path: string, hunk: Option<HunkIdentity>,
                    k: nat): Option<string>
    requires k <= |notes|
    decreases |notes| - k
  {
    if k == |notes| then None
    else if notes[k].scope == scope && notes[k].path == path
            && ((scope.FileScope? && notes[k].hunkIdentity.None?)
                || (scope.HunkScope? && notes[k].hunkIdentity.Some? && hunk.Some? && notes[k].hunkIdentity == hunk))
    then Some(notes[k].text)
    else NoteFrom(notes, scope, path, hunk, k + 1)
  }

  function NoteText(state: Option<TargetState>, path: string, d: Option<Model>, h: int,
                    scope: NoteScope): Option<string> {
    if state.None? then None
    else
      var hunk := if scope.HunkScope? && d.Some? && h >= 0 then Some(IdentityAt(d.value, h, path)) else None;
      NoteFrom(state.value.notes, scope, path, hunk, 0)
  }

  predicate HasNote(state: Option<TargetState>, path: string, d: Option<Model>, h: int, scope: NoteScope) {
    NoteText(state, path, d, h, scope).Some?
  }

  // ----- What the passes look up -----

  /** The first entry of the file, from `k` on, at a hunk's position. */
  function FirstAt(entries: seq<HunkIdentity>, path: string, key: ContentKey, k: nat): (f: nat)
    requires k <= |entries|
    ensures k <= f <= |entries|
    ensures f < |entries| ==> entries[f].path == path && SamePosition(key, entries[f])
    ensures forall m | k <= m < f :: !(entries[m].path == path && SamePosition(key, entries[m]))
    decreases |entries| - k
  {
    if k == |entries| || (entries[k].path == path && SamePosition(key, entries[k])) then k
    else FirstAt(entries, path, key, k + 1)
  }

  function EntryStatus(key: ContentKey, entry: HunkIdentity): MarkerStatus {
    if ContentKeysEqual(key, entry) then Reviewed else ChangedSinceReviewed
  }

  /** The per-hunk scan is decided by the first entry at the hunk's position. */
  lemma {:induction false} ScanIsFirstAt(d: Model, h: nat, path: string, entries: seq<HunkIdentity>, k: nat)
    requires h < |d.hunks| && k <= |entries|
    ensures var f := FirstAt(entries, path, KeyOf(d, h), k);
            EntriesStatus(entries, IdentityAt(d, h, path), k)
            == if f < |entries| then Some(EntryStatus(KeyOf(d, h), entries[f])) else None
    decreases |entries| - k
  {
    if k < |entries| {
      ScanIsFirstAt(d, h, path, entries, k + 1);
    }
  }

  ghost predicate NoteMatches(note: Note, path: string, d: Model, h: nat)
    requires h < |d.hunks|
  {
    note.scope.HunkScope? && note.path == path && note.hunkIdentity == Some(IdentityAt(d, h, path))
  }

  lemma {:induction false} NoteFound(notes: seq<Note>, path: string, d: Model, h: nat, k: nat)
    requires h < |d.hunks| && k <= |notes|
    ensures NoteFrom(notes, HunkScope, path, Some(IdentityAt(d, h, path)), k).Some?
       <==> exists m :: k <= m < |notes| && NoteMatches(notes[m], path, d, h)
    decreases |notes| - k
  {
    if k < |notes| {
      NoteFound(notes, path, d, h, k + 1);
    }
  }

  // ----- The index by position -----

  ghost predicate Indexes(d: Model, keys: seq<ContentKey>, byPosition: map<nat, nat>, n: nat) {
    && n <= |d.hunks| && |keys| == n
    && (forall h | 0 <= h < n :: keys[h] == KeyOf(d, h))
    && (forall h | 0 <= h < n :: PositionKey(keys[h].oldStart, keys[h].newStart) in byPosition)
    && (forall p | p in byPosition ::
        && byPosition[p] < n
        && PositionKey(keys[byPosition[p]].oldStart, keys[byPosition[p]].newStart) == p)
  }

  /** Looking a stored entry up finds the one hunk at its position. */
  lemma {:induction false} LookupFindsHunk(d: Model, keys: seq<ContentKey>, byPosition: map<nat, nat>,
                                           entry: HunkIdentity)
    requires Indexes(d, keys, byPosition, |d.hunks|) && UniquePositions(d)
    ensures var p := PositionKey(entry.oldStart, entry.newStart);
            && (p in byPosition ==> byPosition[p] < |d.hunks| && SamePosition(KeyOf(d, byPosition[p]), entry))
            && forall h: nat | h < |d.hunks| && SamePosition(KeyOf(d, h), entry) :: p in byPosition
                && h == byPosition[p]
  {
    var p := PositionKey(entry.oldStart, entry.newStart);
    if p in byPosition {
      KeyInRange(d, byPosition[p]);
      PositionKeyIsInjective(KeyOf(d, byPosition[p]).oldStart, KeyOf(d, byPosition[p]).newStart, entry.oldStart,
                             entry.newStart);
    }
    forall h: nat | h < |d.hunks| && SamePosition(KeyOf(d, h), entry) ensures p in byPosition && h == byPosition[p] {
      assert keys[h] == KeyOf(d, h);
    }
  }

  // ----- The methods -----

  method AccumulateHunkLineRanges(rows: seq<CompareRows.CompareRow>, hunk: CompareRows.CompareHunk)
    returns (oldStart: nat, oldCount: int, newStart: nat, newCount: int)
    ensures var oldLines := OldRange(rows, hunk.startRow, HunkEnd(hunk));
            && oldStart == StartOf(oldLines)
            && oldCount == CountOf(oldLines)
    ensures var newLines := NewRange(rows, hunk.startRow, HunkEnd(hunk));
            && newStart == StartOf(newLines)
            && newCount == CountOf(newLines)
  {
    var minOld: nat, maxOld: nat, minNew: nat, maxNew: nat := 0, 0, 0, 0;
    var haveOld, haveNew := false, false;
    var row := hunk.startRow;
    while row <= hunk.endRow
      invariant hunk.startRow <= row <= HunkEnd(hunk)
      invariant OldRange(rows, hunk.startRow, row) == if haveOld then Lines(minOld, maxOld) else NoLines
      invariant NewRange(rows, hunk.startRow, row) == if haveNew then Lines(minNew, maxNew) else NoLines
      decreases hunk.endRow + 1 - row
    {
      if row < |rows| {
        if rows[row].leftLine > 0 {
          if !haveOld {
            minOld, maxOld, haveOld := rows[row].leftLine, rows[row].leftLine, true;
          } else {
            minOld, maxOld := Min(minOld, rows[row].leftLine), Max(maxOld, rows[row].leftLine);
          }
        }
        if rows[row].rightLine > 0 {
          if !haveNew {
            minNew, maxNew, haveNew := rows[row].rightLine, rows[row].rightLine, true;
          } else {
            minNew, maxNew := Min(minNew, rows[row].rightLine), Max(maxNew, rows[row].rightLine);
          }
        }
      }
      row := row + 1;
    }
    oldStart, oldCount, newStart, newCount := 0, 0, 0, 0;
    if haveOld {
      oldStart, oldCount := minOld, maxOld - minOld + 1;
    }
    if haveNew {
      newStart, newCount := minNew, maxNew - minNew + 1;
    }
  }

  lemma {:induction false} NothingIndexed(d: Model)
    ensures Indexes(d, [], map[], 0)
  {
  }

  lemma {:induction false} OneMoreIndexed(d: Model, keys: seq<ContentKey>, byPosition: map<nat, nat>, h: nat)
    requires h < |d.hunks| && Indexes(d, keys, byPosition, h)
    ensures var key := KeyOf(d, h);
            var p := PositionKey(key.oldStart, key.newStart);
            Indexes(d, keys + [key], if p in byPosition then byPosition else byPosition[p := h], h + 1)
  {
    hide KeyOf, PositionKey;
  }

  /** First wins: a position already indexed keeps its hunk. */
  method BuildModelHunkIndex(d: Model) returns (keys: seq<ContentKey>, byPosition: map<nat, nat>)
    ensures Indexes(d, keys, byPosition, |d.hunks|)
  {
    hide Indexes, PositionKey, OldRange, NewRange;
    keys, byPosition := [], map[];
    NothingIndexed(d);
    var h := 0;
    while h < |d.hunks|
      invariant h <= |d.hunks| && Indexes(d, keys, byPosition, h)
    {
      var oldStart, oldCount, newStart, newCount := AccumulateHunkLineRanges(d.rows, d.hunks[h]);
      var key := ContentKey(oldStart, oldCount, newStart, newCount, d.hashes[h]);
      OneMoreIndexed(d, keys, byPosition, h);
      keys := keys + [key];
      var p := PositionKey(key.oldStart, key.newStart);
      if p !in byPosition {
        byPosition := byPosition[p := h];
      }
      h := h + 1;
    }
  }

  method AnyReviewedHunkContentMoved(entries: seq<HunkIdentity>, path: string, d: Model, keys: seq<ContentKey>,
                                     byPosition: map<nat, nat>)
    returns (moved: bool)
    requires Indexes(d, keys, byPosition, |d.hunks|) && UniquePositions(d)
    ensures moved <==> AnyMoved(entries, path, d)
  {
    var k := 0;
    while k < |entries|
      invariant k <= |entries|
      invariant forall m: nat, h | m < k :: !Moved(entries, path, d, m, h)
    {
      var entry := entries[k];
      LookupFindsHunk(d, keys, byPosition, entry);
      var p := PositionKey(entry.oldStart, entry.newStart);
      if entry.path == path && p in byPosition && !ContentKeysEqual(keys[byPosition[p]], entry) {
        assert Moved(entries, path, d, k, byPosition[p]);
        return true;
      }
      k := k + 1;
    }
    moved := false;
  }

  /** Pass 1: each hunk's own entry, the first at its position. */
  ghost predicate OwnEntries(entries: seq<HunkIdentity>, path: string, d: Model, markers: seq<Marker>,
                             hasOwn: seq<bool>, k: nat) {
    && k <= |entries| && |markers| == |hasOwn| == |d.hunks|
    && forall h | 0 <= h < |d.hunks| :: OwnEntry(entries, path, d, markers[h], hasOwn[h], h, k)
  }

  ghost predicate OwnEntry(entries: seq<HunkIdentity>, path: string, d: Model, marker: Marker, own: bool, h: nat,
                           k: nat)
    requires h < |d.hunks|
  {
    var f := FirstAt(entries, path, KeyOf(d, h), 0);
    own == (f < |entries| && f < k) && marker
        == Marker(if own then EntryStatus(KeyOf(d, h), entries[f]) else Unreviewed, false)
  }

  method ResolveOwnEntries(entries: seq<HunkIdentity>, path: string, d: Model, keys: seq<ContentKey>,
                           byPosition: map<nat, nat>)
    returns (markers: seq<Marker>, hasOwn: seq<bool>)
    requires Indexes(d, keys, byPosition, |d.hunks|) && UniquePositions(d)
    ensures OwnEntries(entries, path, d, markers, hasOwn, |entries|)
  {
    markers, hasOwn := seq(|d.hunks|, _ => Marker(Unreviewed, false)), seq(|d.hunks|, _ => false);
    var k := 0;
    while k < |entries|
      invariant OwnEntries(entries, path, d, markers, hasOwn, k)
    {
      markers, hasOwn := ResolveEntry(entries, path, d, keys, byPosition, markers, hasOwn, k);
      k := k + 1;
    }
  }

  method ResolveEntry(entries: seq<HunkIdentity>, path: string, d: Model, keys: seq<ContentKey>, byPosition: map<nat,
                      nat>,
                      markers: seq<Marker>, hasOwn: seq<bool>, k: nat)
    returns (markers1: seq<Marker>, hasOwn1: seq<bool>)
    requires Indexes(d, keys, byPosition, |d.hunks|) && UniquePositions(d)
    requires k < |entries| && OwnEntries(entries, path, d, markers, hasOwn, k)
    ensures OwnEntries(entries, path, d, markers1, hasOwn1, k + 1)
  {
    var entry := entries[k];
    LookupFindsHunk(d, keys, byPosition, entry);
    markers1, hasOwn1 := markers, hasOwn;
    var p := PositionKey(entry.oldStart, entry.newStart);
    if entry.path == path && p in byPosition && !hasOwn[byPosition[p]] {
      var at := byPosition[p];
      assert OwnEntry(entries, path, d, markers[at], hasOwn[at], at, k);
      hasOwn1 := hasOwn[at := true];
      markers1 := markers[at := Marker(EntryStatus(keys[at], entry), false)];
    }
    forall h: nat | h < |d.hunks| ensures OwnEntry(entries, path, d, markers1[h], hasOwn1[h], h, k + 1) {
      assert OwnEntry(entries, path, d, markers[h], hasOwn[h], h, k);
    }
  }

  /** Pass 2: the file's status for every hunk without an entry of its own. */
  method ResolveFileFallback(state: TargetState, path: string, d: Model, keys: seq<ContentKey>, byPosition: map<nat,
                             nat>,
                             markers: seq<Marker>, hasOwn: seq<bool>)
    returns (resolved: seq<Marker>)
    requires Indexes(d, keys, byPosition, |d.hunks|) && UniquePositions(d)
    requires OwnEntries(state.reviewedHunks, path, d, markers, hasOwn, |state.reviewedHunks|)
    ensures |resolved| == |d.hunks|
    ensures forall h | 0 <= h < |d.hunks| :: resolved[h] == Marker(HunkStatus(Some(state), path, Some(d), h), false)
  {
    forall h: nat | h < |d.hunks|
      ensures markers[h] == Marker(if hasOwn[h] then HunkStatus(Some(state), path, Some(d), h) else Unreviewed, false)
      ensures !hasOwn[h] ==> HunkStatus(Some(state), path, Some(d), h) == FileStatus(Some(state), path, Some(d)) {
      assert OwnEntry(state.reviewedHunks, path, d, markers[h], hasOwn[h], h, |state.reviewedHunks|);
      ScanIsFirstAt(d, h, path, state.reviewedHunks, 0);
    }
    resolved := markers;
    if false in hasOwn {
      var fileStatus := Unreviewed;
      var entry := FileEntryFrom(state.reviewedFiles, path, 0);
      if entry.Some? {
        var moved := AnyReviewedHunkContentMoved(state.reviewedHunks, path, d, keys, byPosition);
        fileStatus := if FileDiffMoved(entry.value, Some(d)) || moved then ChangedSinceReviewed else Reviewed;
      }
      assert fileStatus == FileStatus(Some(state), path, Some(d));
      if fileStatus != Unreviewed {
        resolved := FillWithout(markers, hasOwn, fileStatus);
      }
    }
  }

  method FillWithout(markers: seq<Marker>, hasOwn: seq<bool>, status: MarkerStatus) returns (filled: seq<Marker>)
    requires |markers| == |hasOwn|
    ensures |filled| == |markers|
    ensures forall h | 0 <= h < |markers| ::
            filled[h] == if hasOwn[h] then markers[h] else markers[h].(status := status)
  {
    filled := markers;
    var i := 0;
    while i < |markers|
      invariant i <= |markers| == |filled|
      invariant forall h | 0 <= h < i :: filled[h] == if hasOwn[h] then markers[h] else markers[h].(status := status)
      invariant forall h | i <= h < |markers| :: filled[h] == markers[h]
    {
      if !hasOwn[i] {
        filled := filled[i := filled[i].(status := status)];
      }
      i := i + 1;
    }
  }

  /** A note up to the `k`-th matches hunk `h`. */
  ghost predicate NotedBy(notes: seq<Note>, path: string, d: Model, h: nat, k: nat)
    requires h < |d.hunks| && k <= |notes|
  {
    exists m :: 0 <= m < k && NoteMatches(notes[m], path, d, h)
  }

  /** Pass 3: hunk notes, matched on the full identity. */
  method ResolveNotes(notes: seq<Note>, path: string, d: Model, keys: seq<ContentKey>, byPosition: map<nat, nat>,
                      markers: seq<Marker>)
    returns (noted: seq<Marker>)
    requires Indexes(d, keys, byPosition, |d.hunks|) && UniquePositions(d)
    requires |markers| == |d.hunks| && forall h | 0 <= h < |markers| :: !markers[h].hasNote
    ensures |noted| == |markers|
    ensures forall h | 0 <= h < |markers| :: noted[h].status == markers[h].status
    ensures forall h | 0 <= h < |markers| :: noted[h].hasNote <==> NotedBy(notes, path, d, h, |notes|)
  {
    noted := markers;
    var k := 0;
    while k < |notes|
      invariant k <= |notes| && |noted| == |markers|
      invariant forall h | 0 <= h < |markers| :: noted[h].status == markers[h].status
      invariant forall h | 0 <= h < |markers| :: noted[h].hasNote <==> NotedBy(notes, path, d, h, k)
    {
      noted := ResolveNote(notes, path, d, keys, byPosition, noted, k);
      k := k + 1;
    }
  }

  method ResolveNote(notes: seq<Note>, path: string, d: Model, keys: seq<ContentKey>, byPosition: map<nat, nat>,
                     markers: seq<Marker>, k: nat)
    returns (noted: seq<Marker>)
    requires Indexes(d, keys, byPosition, |d.hunks|) && UniquePositions(d) && k < |notes| && |markers| == |d.hunks|
    requires forall h | 0 <= h < |markers| :: markers[h].hasNote <==> NotedBy(notes, path, d, h, k)
    ensures |noted| == |markers|
    ensures forall h | 0 <= h < |markers| :: noted[h].status == markers[h].status
    ensures forall h | 0 <= h < |markers| :: noted[h].hasNote <==> NotedBy(notes, path, d, h, k + 1)
  {
    var note := notes[k];
    noted := markers;
    if note.scope.HunkScope? && note.hunkIdentity.Some? && note.path == path && note.hunkIdentity.value.path == path {
      var identity := note.hunkIdentity.value;
      LookupFindsHunk(d, keys, byPosition, identity);
      var p := PositionKey(identity.oldStart, identity.newStart);
      if p in byPosition && ContentKeysEqual(keys[byPosition[p]], identity) {
        noted := markers[byPosition[p] := markers[byPosition[p]].(hasNote := true)];
        assert NoteMatches(note, path, d, byPosition[p]);
      }
    }
    forall h: nat | h < |markers| ensures noted[h].hasNote <==> NotedBy(notes, path, d, h, k + 1) {
      OneMoreNote(notes, path, d, h, k);
    }
  }

  lemma {:induction false} OneMoreNote(notes: seq<Note>, path: string, d: Model, h: nat, k: nat)
    requires h < |d.hunks| && k < |notes|
    ensures NotedBy(notes, path, d, h, k + 1) <==> NotedBy(notes, path, d, h, k) || NoteMatches(notes[k], path, d, h)
  {
    if NotedBy(notes, path, d, h, k) {
      var m :| 0 <= m < k && NoteMatches(notes[m], path, d, h);
      assert 0 <= m < k + 1 && NoteMatches(notes[m], path, d, h);
    }
    if NoteMatches(notes[k], path, d, h) {
      assert 0 <= k < k + 1 && NoteMatches(notes[k], path, d, h);
    }
  }

  class BranchReviewStateService {
    var targets: seq<TargetState>

    constructor ()
      ensures targets == []
    {
      targets := [];
    }

    /** The first stored state of the target. */
    function StateFrom(target: string, k: nat): Option<TargetState>
      reads this
      requires k <= |targets|
      decreases |targets| - k
    {
      if k == |targets| then None
      else if targets[k].target == target then Some(targets[k])
      else StateFrom(target, k + 1)
    }

    method FindTarget(target: string) returns (state: Option<TargetState>)
      ensures state == StateFrom(target, 0)
    {
      var k := 0;
      while k < |targets|
        invariant k <= |targets| && StateFrom(target, 0) == StateFrom(target, k)
      {
        if targets[k].target == target {
          return Some(targets[k]);
        }
        k := k + 1;
      }
      state := None;
    }

    /** One pass gives, for every hunk, the status and the note flag the per-hunk queries give. */
    method ResolveHunkMarkers(target: string, path: string, model: Option<Model>) returns (markers: seq<Marker>)
      requires model.Some? ==> UniquePositions(model.value)
      ensures |markers| == if model.Some? then |model.value.hunks| else 0
      ensures forall h | 0 <= h < |markers| ::
                && markers[h].status == HunkStatus(StateFrom(target, 0), path, model, h)
                && markers[h].hasNote == HasNote(StateFrom(target, 0), path, model, h, HunkScope)
    {
      if model.None? {
        return [];
      }
      var d := model.value;
      var state := FindTarget(target);
      if state.None? || d.hunks == [] {
        return seq(|d.hunks|, _ => Marker(Unreviewed, false));
      }
      var keys, byPosition := BuildModelHunkIndex(d);
      var own, hasOwn := ResolveOwnEntries(state.value.reviewedHunks, path, d, keys, byPosition);
      var resolved := ResolveFileFallback(state.value, path, d, keys, byPosition, own, hasOwn);
      markers := ResolveNotes(state.value.notes, path, d, keys, byPosition, resolved);
      forall h: nat | h < |markers| ensures markers[h].hasNote == HasNote(state, path, model, h, HunkScope) {
        NoteFound(state.value.notes, path, d, h, 0);
        assert markers[h].hasNote <==> NotedBy(state.value.notes, path, d, h, |state.value.notes|);
      }
    }
  }
}
