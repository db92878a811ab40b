/** What the review markers tell a caller: where a hunk is, and when it counts as reviewed, as changed since, or
    as not reviewed. */
module ReviewLaws {
  import opened Basics
  import CompareRows
  import opened ReviewMarkers

  // ----- Where a hunk is -----

  lemma {:induction false} OldRangeCovers(rows: seq<CompareRows.CompareRow>, begin: nat, end: nat)
    requires begin <= end
    ensures var range := OldRange(rows, begin, end);
            forall r: nat | begin <= r < end && r < |rows| && rows[r].leftLine != 0 ::
                range.Lines? && range.low <= rows[r].leftLine <= range.high
    decreases end
  {
    if begin < end {
      OldRangeCovers(rows, begin, end - 1);
    }
  }

  lemma {:induction false} NewRangeCovers(rows: seq<CompareRows.CompareRow>, begin: nat, end: nat)
    requires begin <= end
    ensures var range := NewRange(rows, begin, end);
            forall r: nat | begin <= r < end && r < |rows| && rows[r].rightLine != 0 ::
                range.Lines? && range.low <= rows[r].rightLine <= range.high
    decreases end
  {
    if begin < end {
      NewRangeCovers(rows, begin, end - 1);
    }
  }

  /** `[start, start + count)` runs from the lowest to the highest of `lines`, and is empty at 0 if there are none. */
  ghost predicate Spans(start: int, count: int, lines: set<nat>) {
    if lines == {} then start == 0 && count == 0
    else start in lines && start + count - 1 in lines && forall line | line in lines :: start <= line < start + count
  }

  ghost function OldLines(d: Model, h: nat): set<nat>
    requires h < |d.hunks|
  {
    set r | d.hunks[h].startRow <= r <= d.hunks[h].endRow && r < |d.rows| && d.rows[r].leftLine != 0
      :: d.rows[r].leftLine
  }

  ghost function NewLines(d: Model, h: nat): set<nat>
    requires h < |d.hunks|
  {
    set r | d.hunks[h].startRow <= r <= d.hunks[h].endRow && r < |d.rows| && d.rows[r].rightLine != 0
      :: d.rows[r].rightLine
  }

  lemma {:induction false} OldSpans(d: Model, h: nat)
    requires h < |d.hunks|
    ensures Spans(KeyOf(d, h).oldStart, KeyOf(d, h).oldCount, OldLines(d, h))
  {
    hide OldRange, NewRange;
    OldRangeFrom(d.rows, d.hunks[h].startRow, HunkEnd(d.hunks[h]));
    OldRangeCovers(d.rows, d.hunks[h].startRow, HunkEnd(d.hunks[h]));
    var range := OldRange(d.rows, d.hunks[h].startRow, HunkEnd(d.hunks[h]));
    if range.Lines? {
      assert range.low in OldLines(d, h) && range.high in OldLines(d, h);
    }
  }

  lemma {:induction false} NewSpans(d: Model, h: nat)
    requires h < |d.hunks|
    ensures Spans(KeyOf(d, h).newStart, KeyOf(d, h).newCount, NewLines(d, h))
  {
    hide OldRange, NewRange;
    NewRangeFrom(d.rows, d.hunks[h].startRow, HunkEnd(d.hunks[h]));
    NewRangeCovers(d.rows, d.hunks[h].startRow, HunkEnd(d.hunks[h]));
    var range := NewRange(d.rows, d.hunks[h].startRow, HunkEnd(d.hunks[h]));
    if range.Lines? {
      assert range.low in NewLines(d, h) && range.high in NewLines(d, h);
    }
  }

  /** What a hunk is known by: on each side the lines its rows bear, from the lowest to the highest, and its hash. */
  lemma {:induction false} IdentitySpansLines(d: Model, path: string, h: nat)
    requires h < |d.hunks|
    ensures var identity := IdentityAt(d, h, path);
            && identity.path == path && identity.contentHash == d.hashes[h]
            && Spans(identity.oldStart, identity.oldCount, OldLines(d, h))
            && Spans(identity.newStart, identity.newCount, NewLines(d, h))
  {
    hide OldLines, NewLines, KeyOf, Spans;
    HashOfKey(d, h);
    OldSpans(d, h);
    NewSpans(d, h);
  }

  lemma {:induction false} HashOfKey(d: Model, h: nat)
    requires h < |d.hunks|
    ensures KeyOf(d, h).contentHash == d.hashes[h]
  {
  }

  // ----- When a file counts as reviewed -----

  /** Entry `k` is the first of the file. */
  ghost predicate IsFileEntry(files: seq<FileEntry>, path: string, k: nat) {
    k < |files| && files[k].path == path && forall m | 0 <= m < k :: files[m].path != path
  }

  ghost predicate AtPosition(entry: HunkIdentity, identity: HunkIdentity) {
    entry.path == identity.path && entry.oldStart == identity.oldStart && entry.newStart == identity.newStart
  }

  /** The file was reviewed at a known fingerprint which the diff at hand does not have. */
  ghost predicate OtherFingerprint(entry: FileEntry, d: Option<Model>) {
    d.Some? && entry.reviewedDiffFingerprint != 0 && entry.reviewedDiffFingerprint != d.value.fingerprint
  }

  /** Some hunk is where a reviewed one was, but is another. */
  ghost predicate SomeHunkReplaced(entries: seq<HunkIdentity>, path: string, d: Option<Model>) {
    d.Some? && exists k, h |
      0 <= k < |entries| && 0 <= h < |d.value.hunks| ::
      AtPosition(entries[k], IdentityAt(d.value, h, path)) && entries[k] != IdentityAt(d.value, h, path)
  }

  lemma {:induction false} FileEntryIs(files: seq<FileEntry>, path: string, k: nat)
    requires k <= |files| && forall m | 0 <= m < k :: files[m].path != path
    ensures FileEntryFrom(files, path, k).None? <==> forall m | 0 <= m < |files| :: files[m].path != path
    ensures forall f: nat | IsFileEntry(files, path, f) :: FileEntryFrom(files, path, k) == Some(files[f])
    decreases |files| - k
  {
    if k < |files| && files[k].path != path {
      FileEntryIs(files, path, k + 1);
    }
  }

  lemma {:induction false} MovedIsReplaced(entries: seq<HunkIdentity>, path: string, d: Model, k: nat, h: nat)
    requires k < |entries| && h < |d.hunks|
    ensures Moved(entries, path, d, k, h)
       <==> AtPosition(entries[k], IdentityAt(d, h, path)) && entries[k] != IdentityAt(d, h, path)
  {
    hide KeyOf;
  }

  lemma {:induction false} AnyMovedIsReplaced(entries: seq<HunkIdentity>, path: string, d: Model)
    ensures AnyMoved(entries, path, d) <==> SomeHunkReplaced(entries, path, Some(d))
  {
    hide AtPosition, IdentityAt;
    forall k: nat, h: nat | k < |entries| && h < |d.hunks|
      ensures Moved(entries, path, d, k, h)
         <==> AtPosition(entries[k], IdentityAt(d, h, path)) && entries[k] != IdentityAt(d, h, path) {
      MovedIsReplaced(entries, path, d, k, h);
    }
    if AnyMoved(entries, path, d) {
      var k: nat, h: nat :| Moved(entries, path, d, k, h);
      assert AtPosition(entries[k], IdentityAt(d, h, path));
    }
    if SomeHunkReplaced(entries, path, Some(d)) {
      var k, h :| 0 <= k < |entries| && 0 <= h < |d.hunks| && AtPosition(entries[k], IdentityAt(d, h, path))
          && entries[k] != IdentityAt(d, h, path);
      assert Moved(entries, path, d, k, h);
    }
  }

  /** A file without an entry is not reviewed.  One with an entry counts as changed exactly when a diff is at hand
      and it has another fingerprint than the file was reviewed at, 0 standing for none, or one of its hunks took
      the place of a reviewed one. */
  lemma {:induction false} FileStatusMeaning(state: TargetState, path: string, d: Option<Model>, k: nat)
    ensures FileStatus(None, path, d) == Unreviewed
    ensures FileStatus(Some(state), path, d) == Unreviewed
       <==> forall m | 0 <= m < |state.reviewedFiles| :: state.reviewedFiles[m].path != path
    ensures IsFileEntry(state.reviewedFiles, path, k) ==>
              (FileStatus(Some(state), path, d) == ChangedSinceReviewed
               <==> OtherFingerprint(state.reviewedFiles[k], d) || SomeHunkReplaced(state.reviewedHunks, path, d))
  {
    hide FileEntryFrom, SomeHunkReplaced, AnyMoved;
    FileEntryIs(state.reviewedFiles, path, 0);
    if d.Some? {
      AnyMovedIsReplaced(state.reviewedHunks, path, d.value);
    } else {
      NothingReplaced(state.reviewedHunks, path);
    }
  }

  lemma {:induction false} NothingReplaced(entries: seq<HunkIdentity>, path: string)
    ensures !SomeHunkReplaced(entries, path, None)
  {
  }

  // ----- When a hunk counts as reviewed -----

  /** Entry `k` is the first of the file at the hunk's position. */
  ghost predicate IsHunkEntry(entries: seq<HunkIdentity>, identity: HunkIdentity, k: nat) {
    k < |entries| && AtPosition(entries[k], identity) && forall m | 0 <= m < k :: !AtPosition(entries[m], identity)
  }

  lemma {:induction false} OneHunkEntry(entries: seq<HunkIdentity>, identity: HunkIdentity, k: nat, f: nat)
    requires k < |entries| && AtPosition(entries[k], identity) && IsHunkEntry(entries, identity, f)
    requires forall m | 0 <= m < k :: !AtPosition(entries[m], identity)
    ensures f == k
  {
  }

  lemma {:induction false} NoHunkEntryAfterAll(entries: seq<HunkIdentity>, identity: HunkIdentity)
    requires forall m | 0 <= m < |entries| :: !AtPosition(entries[m], identity)
    ensures EntriesStatus(entries, identity, |entries|) == None
    ensures forall f: nat :: !IsHunkEntry(entries, identity, f)
  {
  }

  lemma {:induction false} EntryDecides(entries: seq<HunkIdentity>, identity: HunkIdentity, k: nat)
    requires k < |entries|
    ensures AtPosition(entries[k], identity) ==>
              EntriesStatus(entries, identity, k) == Some(if entries[k] == identity then Reviewed
                                                          else ChangedSinceReviewed)
    ensures !AtPosition(entries[k], identity) ==>
              EntriesStatus(entries, identity, k) == EntriesStatus(entries, identity, k + 1)
  {
  }

  lemma {:induction false} EntriesStatusIs(entries: seq<HunkIdentity>, identity: HunkIdentity, k: nat)
    requires k <= |entries| && forall m | 0 <= m < k :: !AtPosition(entries[m], identity)
    ensures (forall m | 0 <= m < |entries| :: !AtPosition(entries[m], identity))
            ==> EntriesStatus(entries, identity, k) == None
    ensures forall f: nat | IsHunkEntry(entries, identity, f) ::
        EntriesStatus(entries, identity, k) == Some(if entries[f] == identity then Reviewed else ChangedSinceReviewed)
    decreases |entries| - k
  {
    hide AtPosition, IsHunkEntry;
    if k == |entries| {
      NoHunkEntryAfterAll(entries, identity);
    } else {
      EntryDecides(entries, identity, k);
      if AtPosition(entries[k], identity) {
        forall f: nat | IsHunkEntry(entries, identity, f) ensures f == k {
          OneHunkEntry(entries, identity, k, f);
        }
      } else {
        EntriesStatusIs(entries, identity, k + 1);
      }
    }
  }

  /** The first stored entry at a hunk's position decides: it is reviewed when the entry is the hunk itself, and
      changed since when it is not; a hunk no entry is at the position of is what its file is. */
  lemma {:induction false} HunkStatusMeaning(state: TargetState, path: string, d: Model, h: nat, k: nat)
    requires h < |d.hunks|
    ensures var identity := IdentityAt(d, h, path);
            var entries := state.reviewedHunks;
            var status := HunkStatus(Some(state), path, Some(d), h);
            && (IsHunkEntry(entries, identity, k) ==>
                  status == if entries[k] == identity then Reviewed else ChangedSinceReviewed)
            && ((forall m | 0 <= m < |entries| :: !AtPosition(entries[m], identity)) ==>
                  status == FileStatus(Some(state), path, Some(d)))
  {
    hide EntriesStatus, FileStatus, IdentityAt, AtPosition;
    EntriesStatusIs(state.reviewedHunks, IdentityAt(d, h, path), 0);
  }
}
