/** What the diagnostics index keeps of an owner's list, and in which order a view shows it. */
module DiagnosticsLaws {
  import opened Basics
  import opened EditPositions
  import opened Sorting
  import opened Diagnostics

  /** `kept` are the first 10000 of `diagnostics`, under their owner and path. */
  ghost predicate FirstOf(kept: seq<Published>, owner: string, path: string, diagnostics: seq<Diagnostic>) {
    && |kept| == Min(|diagnostics|, 10000)
    && forall k | 0 <= k < |kept| ::
      kept[k] == Published(owner, path, diagnostics[k].range, diagnostics[k].severity, diagnostics[k].message)
  }

  /** Of an owner's list the first 10000 are kept, whatever their severity, and sorted; how many there were is
      remembered, and the list counts as truncated exactly when that is more. */
  lemma {:induction false} EntryKeepsFirst(owner: string, path: string, diagnostics: seq<Diagnostic>)
    ensures var file := EntryOf(owner, path, diagnostics);
            && Sorted(file.diagnostics, NotAfter)
            && (exists kept :: FirstOf(kept, owner, path, diagnostics) && multiset(file.diagnostics) == multiset(kept))
            && file.originalCount == |diagnostics| && (file.truncated <==> |diagnostics| > 10000)
  {
    hide NotAfter, Summarized;
    var kept := diagnostics[..Min(|diagnostics|, MAX_DIAGNOSTICS_PER_OWNER_FILE)];
    OrderIsTotal();
    SortBySorts(Publish(owner, path, kept), NotAfter);
    assert FirstOf(Publish(owner, path, kept), owner, path, diagnostics);
  }

  /** `moved` are the same diagnostics at transformed ranges. */
  ghost predicate Transformed(moved: seq<Published>, list: seq<Published>, transform: Range -> Range) {
    |moved| == |list| && forall k | 0 <= k < |list| :: moved[k] == list[k].(range := transform(list[k].range))
  }

  /** Moving a list moves every range, drops nothing and sorts again; its counts stay. */
  lemma {:induction false} MovingTransformsAll(file: File, transform: Range -> Range)
    ensures var after := Diagnostics.Moved(file, transform);
            && Sorted(after.diagnostics, NotAfter)
            && (exists moved ::
                  Transformed(moved, file.diagnostics, transform) && multiset(after.diagnostics) == multiset(moved))
            && after.summary == file.summary && after.truncated == file.truncated
            && after.originalCount == file.originalCount
  {
    hide NotAfter;
    var moved := MoveAll(file.diagnostics, transform);
    OrderIsTotal();
    SortBySorts(moved, NotAfter);
    assert Transformed(moved, file.diagnostics, transform);
  }

  ghost function Places(list: seq<Published>, severity: Severity): set<nat> {
    set k | 0 <= k < |list| && list[k].severity == severity
  }

  lemma {:induction false} PlacesMore(list: seq<Published>, severity: Severity)
    requires list != []
    ensures var n := |list| - 1;
            |Places(list, severity)| == |Places(list[..n], severity)| + if list[n].severity == severity then 1 else 0
  {
    var n := |list| - 1;
    var before, all := Places(list[..n], severity), Places(list, severity);
    forall k ensures k in all <==> k in before || (k == n && list[n].severity == severity) {
      assert 0 <= k < n ==> list[..n][k] == list[k];
    }
    assert n !in before;
    hide Places;
    assert all == before + if list[n].severity == severity then {n} else {};
  }

  /** A severity's counter is the number of diagnostics that have it. */
  lemma {:induction false} CountIsNumber(list: seq<Published>, severity: Severity)
    ensures Diagnostics.Count(list, severity) == |Places(list, severity)|
  {
    if list == [] {
      assert Places(list, severity) == {};
    } else {
      hide Places;
      CountIsNumber(list[..|list| - 1], severity);
      PlacesMore(list, severity);
    }
  }

  ghost predicate Precedes(p: Position, q: Position) {
    p.line < q.line || (p.line == q.line && p.column <= q.column)
  }

  /** A view shows its diagnostics by where they start, then by where they end, and at one range the more severe
      first. */
  lemma {:induction false} ViewIsByPosition(list: seq<Published>, i: nat, j: nat)
    requires Sorted(list, NotAfter) && i < j < |list| && list[i].path == list[j].path
    ensures var a, b := list[i].range, list[j].range;
            && Precedes(a.start, b.start)
            && (a.start == b.start ==> Precedes(a.end, b.end))
            && (a == b ==> Rank(list[i].severity) <= Rank(list[j].severity))
  {
    hide StringNotAfter;
    assert NotAfter(list[i], list[j]);
  }
}
