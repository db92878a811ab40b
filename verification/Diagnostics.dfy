/** The diagnostics index: each owner's list for each file, the merged view of each file, and counters kept
    up to date as the view changes. */
module Diagnostics {
  import opened Basics
  import opened EditPositions
  import opened Sorting

  const MAX_DIAGNOSTICS_PER_OWNER_FILE := 10000
  const MAX_MERGED_DIAGNOSTICS_PER_FILE := 20000

  datatype Severity = Error | Warning | Info | Hint

  /** A diagnostic as its owner publishes it. */
  datatype Diagnostic = Diagnostic(range: Range, severity: Severity, message: string)

  datatype Published = Published(owner: string, path: string, range: Range, severity: Severity, message: string)

  datatype Summary = Summary(errors: nat, warnings: nat, infos: nat, hints: nat)

  datatype File = File(diagnostics: seq<Published>, summary: Summary, truncated: bool, originalCount: nat)

  // ----- The order -----

  function Rank(s: Severity): nat {
    match s
    case Error => 0
    case Warning => 1
    case Info => 2
    case Hint => 3
  }

  /** Lexicographic order of strings. */
  predicate StringNotAfter(a: string, b: string)
    decreases |a|
  {
    if a == "" then true
    else if b == "" then false
    else if a[0] != b[0] then a[0] < b[0]
    else StringNotAfter(a[1..], b[1..])
  }

  predicate NotAfter(a: Published, b: Published) {
    if a.path != b.path then StringNotAfter(a.path, b.path)
    else if a.range.start != b.range.start then Before(a.range.start, b.range.start)
    else if a.range.end != b.range.end then Before(a.range.end, b.range.end)
    else if a.severity != b.severity then Rank(a.severity) < Rank(b.severity)
    else if a.owner != b.owner then StringNotAfter(a.owner, b.owner)
    else StringNotAfter(a.message, b.message)
  }

  lemma {:induction false} StringsCompare(a: string, b: string)
    ensures StringNotAfter(a, b) || StringNotAfter(b, a)
    ensures StringNotAfter(a, b) && StringNotAfter(b, a) ==> a == b
    decreases |a|
  {
    if a != "" && b != "" && a[0] == b[0] {
      StringsCompare(a[1..], b[1..]);
      assert a == [a[0]] + a[1..] && b == [b[0]] + b[1..];
    }
  }

  lemma {:induction false} StringsChain(a: string, b: string, c: string)
    requires StringNotAfter(a, b) && StringNotAfter(b, c)
    ensures StringNotAfter(a, c)
    decreases |a|
  {
    if a != "" && b != "" && c != "" && a[0] == b[0] == c[0] {
      StringsChain(a[1..], b[1..], c[1..]);
    }
  }

  lemma {:induction false} Compare(a: Published, b: Published)
    ensures NotAfter(a, b) || NotAfter(b, a)
    ensures NotAfter(a, b) && NotAfter(b, a) ==> a == b
  {
    StringsCompare(a.path, b.path);
    StringsCompare(a.owner, b.owner);
    StringsCompare(a.message, b.message);
  }

  lemma {:induction false} Chain(a: Published, b: Published, c: Published)
    requires NotAfter(a, b) && NotAfter(b, c)
    ensures NotAfter(a, c)
  {
    StringsCompare(a.path, b.path);
    StringsCompare(b.path, c.path);
    if StringNotAfter(a.path, b.path) && StringNotAfter(b.path, c.path) {
      StringsChain(a.path, b.path, c.path);
    }
    StringsCompare(a.owner, b.owner);
    StringsCompare(b.owner, c.owner);
    if StringNotAfter(a.owner, b.owner) && StringNotAfter(b.owner, c.owner) {
      StringsChain(a.owner, b.owner, c.owner);
    }
    if StringNotAfter(a.message, b.message) && StringNotAfter(b.message, c.message) {
      StringsChain(a.message, b.message, c.message);
    }
  }

  lemma {:induction false} OrderIsTotal()
    ensures TotalOrder(NotAfter)
  {
    forall a, b ensures (NotAfter(a, b) || NotAfter(b, a)) && (NotAfter(a, b) && NotAfter(b, a) ==> a == b) {
      Compare(a, b);
    }
    forall a, b, c | NotAfter(a, b) && NotAfter(b, c) ensures NotAfter(a, c) {
      Chain(a, b, c);
    }
  }

  // ----- Counting -----

  /** Numbers a file contributes to the store's totals. */
  datatype Total = Errors | Warnings | Infos | Hints | Truncated | Original

  function Of(file: File, total: Total): nat {
    match total
    case Errors => file.summary.errors
    case Warnings => file.summary.warnings
    case Infos => file.summary.infos
    case Hints => file.summary.hints
    case Truncated => if file.truncated then 1 else 0
    case Original => file.originalCount
  }

  ghost function Sum(files: map<string, File>, total: Total): nat {
    if files == map[] then 0
    else
      var k :| k in files;
      Of(files[k], total) + Sum(files - {k}, total)
  }

  lemma {:induction false} SumRemove(files: map<string, File>, k: string, total: Total)
    requires k in files
    ensures Sum(files, total) == Of(files[k], total) + Sum(files - {k}, total)
    decreases |files|
  {
    var j :| j in files && Sum(files, total) == Of(files[j], total) + Sum(files - {j}, total);
    if j != k {
      SumRemove(files - {j}, k, total);
      SumRemove(files - {k}, j, total);
      assert files - {j} - {k} == files - {k} - {j};
    }
  }

  lemma {:induction false} SumPut(files: map<string, File>, k: string, file: File, total: Total)
    ensures Sum(files[k := file], total) == Of(file, total) + Sum(files - {k}, total)
  {
    SumRemove(files[k := file], k, total);
    assert files[k := file] - {k} == files - {k};
  }

  function Count(diagnostics: seq<Published>, severity: Severity): nat {
    if diagnostics == [] then 0
    else
      var last := diagnostics[|diagnostics| - 1];
      Count(diagnostics[..|diagnostics| - 1], severity) + if last.severity == severity then 1 else 0
  }

  function Summarized(diagnostics: seq<Published>): Summary {
    Summary(Count(diagnostics, Error), Count(diagnostics, Warning), Count(diagnostics, Info), Count(diagnostics, Hint))
  }

  method SummarizeDiagnostics(diagnostics: seq<Published>) returns (summary: Summary)
    ensures summary == Summarized(diagnostics)
  {
    summary := Summary(0, 0, 0, 0);
    var k := 0;
    while k < |diagnostics|
      invariant k <= |diagnostics| && summary == Summarized(diagnostics[..k])
    {
      assert diagnostics[..k + 1][..k] == diagnostics[..k];
      match diagnostics[k].severity {
        case Error => summary := summary.(errors := summary.errors + 1);
        case Warning => summary := summary.(warnings := summary.warnings + 1);
        case Info => summary := summary.(infos := summary.infos + 1);
        case Hint => summary := summary.(hints := summary.hints + 1);
      }
      k := k + 1;
    }
    assert diagnostics[..k] == diagnostics;
  }

  // ----- The merged view -----

  type Owners = map<string, map<string, File>>

  /** An owner's list for a file: its own diagnostics, sorted, capped. */
  ghost predicate OwnerFile(file: File, owner: string, path: string) {
    && file.diagnostics != [] && |file.diagnostics| <= MAX_DIAGNOSTICS_PER_OWNER_FILE
    && (forall k | 0 <= k < |file.diagnostics| ::
        && file.diagnostics[k].owner == owner
        && file.diagnostics[k].path == path)
    && Sorted(file.diagnostics, NotAfter)
    && file.summary == Summarized(file.diagnostics)
  }

  ghost predicate OwnersValid(owners: Owners) {
    forall o | o in owners ::
      o != "" && owners[o] != map[] && forall p | p in owners[o] :: p != "" && OwnerFile(owners[o][p], o, p)
  }

  predicate Has(owners: Owners, owner: string, path: string) {
    owner in owners && path in owners[owner]
  }

  /** The lists of `path`, by owner, of the owners in `among`. */
  ghost function Lists(owners: Owners, among: set<string>, path: string): map<string, File> {
    map o | o in among && Has(owners, o, path) :: owners[o][path]
  }

  /** How often a diagnostic occurs in the lists: all its copies are in its owner's list. */
  ghost function Occurrences(lists: map<string, File>, d: Published): nat {
    if d.owner in lists then multiset(lists[d.owner].diagnostics)[d] else 0
  }

  /** `full` holds exactly the diagnostics of all the lists, sorted. */
  ghost predicate IsUnion(full: seq<Published>, lists: map<string, File>) {
    && Sorted(full, NotAfter)
    && forall d :: multiset(full)[d] == Occurrences(lists, d)
  }

  /** The capped view of a sorted union. */
  function Capped(full: seq<Published>, truncated: bool, originalCount: nat): File {
    File(full[..Min(|full|, MAX_MERGED_DIAGNOSTICS_PER_FILE)], Summarized(full),
         truncated || |full| > MAX_MERGED_DIAGNOSTICS_PER_FILE, originalCount)
  }

  ghost predicate AnyTruncated(lists: map<string, File>) {
    exists o :: o in lists && lists[o].truncated
  }

  /** The merged view of a file: the sorted union of its owners' lists, counted before it is capped. */
  ghost predicate IsMerged(file: File, lists: map<string, File>) {
    exists full :: IsUnion(full, lists) && full != [] && file == Capped(full, AnyTruncated(lists), Sum(lists, Original))
  }

  /** There is only one sorted union, so only one merged view. */
  lemma {:induction false} MergedIsUnique(a: File, b: File, lists: map<string, File>)
    requires IsMerged(a, lists) && IsMerged(b, lists)
    ensures a == b
  {
    var f :| IsUnion(f, lists) && f != [] && a == Capped(f, AnyTruncated(lists), Sum(lists, Original));
    var g :| IsUnion(g, lists) && g != [] && b == Capped(g, AnyTruncated(lists), Sum(lists, Original));
    OrderIsTotal();
    assert multiset(f) == multiset(g);
    ElementsDecideOrder(f, g, NotAfter);
  }

  // ----- What the cap drops -----

  /** None of the diagnostics dropped is more severe than one that was kept. */
  predicate NoneOutranked(kept: seq<Published>, dropped: seq<Published>) {
    forall k, d | 0 <= k < |kept| && 0 <= d < |dropped| :: Rank(kept[k].severity) <= Rank(dropped[d].severity)
  }

  function CountIn(summary: Summary, severity: Severity): nat {
    match severity
    case Error => summary.errors
    case Warning => summary.warnings
    case Info => summary.infos
    case Hint => summary.hints
  }

  /** Of whatever is more severe than something a view shows, it shows all that its summary counts. */
  predicate ShowsAllAbove(file: File) {
    forall shown, above | Rank(above) < Rank(shown) && CountIn(Summarized(file.diagnostics), shown) > 0 ::
      CountIn(Summarized(file.diagnostics), above) == CountIn(file.summary, above)
  }

  lemma {:induction false} CountedIsThere(list: seq<Published>, severity: Severity) returns (k: nat)
    requires Count(list, severity) > 0
    ensures k < |list| && list[k].severity == severity
  {
    k := |list| - 1;
    if list[k].severity != severity {
      k := CountedIsThere(list[..k], severity);
    }
  }

  lemma {:induction false} ThereIsCounted(list: seq<Published>, k: nat)
    requires k < |list|
    ensures Count(list, list[k].severity) > 0
  {
    if k < |list| - 1 {
      ThereIsCounted(list[..|list| - 1], k);
    }
  }

  lemma {:induction false} NoneOutrankedByCounts(kept: seq<Published>, dropped: seq<Published>)
    ensures NoneOutranked(kept, dropped)
       <==> forall shown, above | Rank(above) < Rank(shown) && Count(kept, shown) > 0 :: Count(dropped, above) == 0
  {
    hide Count;
    if NoneOutranked(kept, dropped) {
      forall shown, above | Rank(above) < Rank(shown) && Count(kept, shown) > 0 ensures Count(dropped, above) == 0 {
        if Count(dropped, above) > 0 {
          var k := CountedIsThere(kept, shown);
          var d := CountedIsThere(dropped, above);
          assert false;
        }
      }
    } else {
      var k: nat, d: nat :| k < |kept| && d < |dropped| && Rank(dropped[d].severity) < Rank(kept[k].severity);
      ThereIsCounted(kept, k);
      ThereIsCounted(dropped, d);
    }
  }

  /** What a reader of a view can tell: nothing dropped outranks what is shown exactly when, for each severity
      the view shows, it shows all it counts of the severities above. */
  lemma {:induction false} ViewTellsWhatWasDropped(full: seq<Published>, truncated: bool, originalCount: nat)
    ensures var n := Min(|full|, MAX_MERGED_DIAGNOSTICS_PER_FILE);
            NoneOutranked(full[..n], full[n..]) <==> ShowsAllAbove(Capped(full, truncated, originalCount))
  {
    var n := Min(|full|, MAX_MERGED_DIAGNOSTICS_PER_FILE);
    assert full == full[..n] + full[n..];
    ShowsAllAboveByCounts(full[..n], full[n..], Capped(full, truncated, originalCount));
    NoneOutrankedByCounts(full[..n], full[n..]);
    hide NoneOutranked, ShowsAllAbove, Count, Summarized;
  }

  lemma {:induction false} ShowsAllAboveByCounts(kept: seq<Published>, dropped: seq<Published>, file: File)
    requires file.diagnostics == kept && file.summary == Summarized(kept + dropped)
    ensures ShowsAllAbove(file)
       <==> forall shown, above | Rank(above) < Rank(shown) && Count(kept, shown) > 0 :: Count(dropped, above) == 0
  {
    forall severity ensures CountIn(file.summary, severity) == Count(kept, severity) + Count(dropped, severity)
      ensures CountIn(Summarized(kept), severity) == Count(kept, severity) {
      hide Count;
      CountConcat(kept, dropped, severity);
    }
    hide CountIn, Summarized, Count, Rank;
  }

  /** How many diagnostics stand before the first of a severity; all of them if there is none. */
  function StandBefore(list: seq<Published>, severity: Severity): (r: nat)
    ensures r <= |list| && (r < |list| ==> list[r].severity == severity)
    ensures forall k | 0 <= k < r :: list[k].severity != severity
  {
    if list == [] || list[0].severity == severity then 0 else 1 + StandBefore(list[1..], severity)
  }

  /** How many diagnostics stand up to and including the last of a severity; none if there is none. */
  function StandUpTo(list: seq<Published>, severity: Severity): (r: nat)
    ensures r <= |list| && (r > 0 ==> list[r - 1].severity == severity)
    ensures forall k | r <= k < |list| :: list[k].severity != severity
  {
    if list == [] || list[|list| - 1].severity == severity then |list| else StandUpTo(list[..|list| - 1], severity)
  }

  /** Of any two severities, the cap comes after the last of the severer or before the first of the other. */
  predicate CapSplitsNoSeverities(full: seq<Published>) {
    forall severer, milder | Rank(severer) < Rank(milder) ::
      StandUpTo(full, severer) <= MAX_MERGED_DIAGNOSTICS_PER_FILE
          || MAX_MERGED_DIAGNOSTICS_PER_FILE <= StandBefore(full, milder)
  }

  /** The cap drops nothing more severe than something it keeps exactly when, in the sorted union of the
      owners' lists, no severity reaches beyond the cap while a milder one starts before it. */
  lemma {:induction false} CapKeepsSeverestIff(full: seq<Published>)
    ensures var n := Min(|full|, MAX_MERGED_DIAGNOSTICS_PER_FILE);
            NoneOutranked(full[..n], full[n..]) <==> CapSplitsNoSeverities(full)
  {
    var cap, n := MAX_MERGED_DIAGNOSTICS_PER_FILE, Min(|full|, MAX_MERGED_DIAGNOSTICS_PER_FILE);
    var kept, dropped := full[..n], full[n..];
    hide StandUpTo, StandBefore;
    if NoneOutranked(kept, dropped) {
      forall severer, milder | Rank(severer) < Rank(milder)
        ensures StandUpTo(full, severer) <= cap || cap <= StandBefore(full, milder) {
        var last, first := StandUpTo(full, severer), StandBefore(full, milder);
        if cap < last && first < cap {
          assert false;
        }
      }
    } else {
      var k: nat, d: nat :| k < |kept| && d < |dropped| && Rank(dropped[d].severity) < Rank(kept[k].severity);
      assert full[k] == kept[k] && full[n + d] == dropped[d];
      assert StandBefore(full, kept[k].severity) <= k && n + d < StandUpTo(full, dropped[d].severity);
    }
  }

  lemma {:induction false} ListIsOwned(file: File, owner: string, path: string)
    requires OwnerFile(file, owner, path)
    ensures |multiset(file.diagnostics)| <= MAX_DIAGNOSTICS_PER_OWNER_FILE
    ensures forall d | d in multiset(file.diagnostics) :: d.owner == owner
  {
    forall d | d in multiset(file.diagnostics) ensures d.owner == owner {
      assert d in file.diagnostics;
    }
  }

  /** No list is longer than its cap, so the union is no longer than all of them may be. */
  lemma {:induction false} UnionFits(all: multiset<Published>, lists: map<string, File>, path: string)
    requires forall o | o in lists :: OwnerFile(lists[o], o, path)
    requires forall d :: all[d] == Occurrences(lists, d)
    ensures |all| <= |lists| * MAX_DIAGNOSTICS_PER_OWNER_FILE
    decreases |lists|
  {
    hide OwnerFile;
    if lists == map[] {
      assert all == multiset{};
    } else {
      var o :| o in lists;
      var own, rest := multiset(lists[o].diagnostics), lists - {o};
      ListIsOwned(lists[o], o, path);
      forall d ensures (all - own)[d] == Occurrences(rest, d) && own[d] <= all[d] {
        assert all[d] == Occurrences(lists, d);
      }
      assert all == own + (all - own);
      UnionFits(all - own, rest, path);
    }
  }

  /** A path that at most two owners hold loses nothing to the cap. */
  lemma {:induction false} TwoOwnersLoseNothing(full: seq<Published>, lists: map<string, File>, path: string)
    requires IsUnion(full, lists) && forall o | o in lists :: OwnerFile(lists[o], o, path)
    requires |lists| <= 2
    ensures |full| <= MAX_MERGED_DIAGNOSTICS_PER_FILE
    ensures Capped(full, AnyTruncated(lists), Sum(lists, Original)).diagnostics == full
  {
    UnionFits(multiset(full), lists, path);
    assert |multiset(full)| == |full|;
    hide OwnerFile, IsUnion;
  }

  /** `MAX_DIAGNOSTICS_PER_OWNER_FILE` hints on the lines from `line` on. */
  function HintsFrom(owner: string, path: string, line: nat): (list: seq<Published>)
    ensures |list| == MAX_DIAGNOSTICS_PER_OWNER_FILE
    ensures forall k | 0 <= k < |list| :: list[k] == Published(owner, path, LineRange(line + k), Hint, "")
  {
    seq(MAX_DIAGNOSTICS_PER_OWNER_FILE, k requires 0 <= k => Published(owner, path, LineRange(line + k), Hint, ""))
  }

  function LineRange(line: nat): Range {
    Range(Position(line, 0), Position(line, 1))
  }

  function FileOf(list: seq<Published>): File {
    File(list, Summarized(list), false, |list|)
  }

  lemma {:induction false} SortedByLine(list: seq<Published>, path: string)
    requires forall i, k | 0 <= i < k < |list| :: list[i].range.start.line < list[k].range.start.line
    requires forall k | 0 <= k < |list| :: list[k].path == path
    ensures Sorted(list, NotAfter)
  {
  }

  lemma {:induction false} HintsAreOwnerFile(owner: string, path: string, line: nat)
    ensures OwnerFile(FileOf(HintsFrom(owner, path, line)), owner, path)
  {
    SortedByLine(HintsFrom(owner, path, line), path);
  }

  function LateError(path: string): seq<Published> {
    [Published("c", path, LineRange(MAX_MERGED_DIAGNOSTICS_PER_FILE), Error, "")]
  }

  function FullView(path: string): seq<Published> {
    HintsFrom("a", path, 0) + HintsFrom("b", path, MAX_DIAGNOSTICS_PER_OWNER_FILE) + LateError(path)
  }

  function ThreeLists(path: string): map<string, File> {
    map["a" := FileOf(HintsFrom("a", path, 0)), "b" := FileOf(HintsFrom("b", path, MAX_DIAGNOSTICS_PER_OWNER_FILE)),
        "c" := FileOf(LateError(path))]
  }

  /** Owners with one list each, for `path`. */
  function OwnersOf(lists: map<string, File>, path: string): Owners {
    map o | o in lists :: map[path := lists[o]]
  }

  lemma {:induction false} OwnersOfLists(lists: map<string, File>, path: string)
    requires path != "" && forall o | o in lists :: o != "" && OwnerFile(lists[o], o, path)
    ensures OwnersValid(OwnersOf(lists, path))
    ensures Lists(OwnersOf(lists, path), OwnersOf(lists, path).Keys, path) == lists
  {
    hide OwnerFile;
    var owners := OwnersOf(lists, path);
    assert forall o | o in owners :: path in owners[o];
  }

  lemma {:induction false} ThreeListsGathered(path: string)
    ensures Gathered(FullView(path), ThreeLists(path))
    ensures forall o | o in ThreeLists(path) :: o != "" && OwnerFile(ThreeLists(path)[o], o, path)
  {
    var a, b, c := HintsFrom("a", path, 0), HintsFrom("b", path, MAX_DIAGNOSTICS_PER_OWNER_FILE), LateError(path);
    assert OwnerFile(FileOf(c), "c", path);
    HintsAreOwnerFile("a", path, 0);
    HintsAreOwnerFile("b", path, MAX_DIAGNOSTICS_PER_OWNER_FILE);
    hide OwnerFile, Gathered, HintsFrom, LateError;
    var none: map<string, File> := map[];
    NothingGathered(map[], path);
    assert Lists(map[], {}, path) == none;
    GatherOne([], none, "a", FileOf(a), path);
    GatherOne([] + a, none["a" := FileOf(a)], "b", FileOf(b), path);
    GatherOne([] + a + b, none["a" := FileOf(a)]["b" := FileOf(b)], "c", FileOf(c), path);
    assert none["a" := FileOf(a)]["b" := FileOf(b)]["c" := FileOf(c)] == ThreeLists(path);
    assert [] + a == a;
  }

  /** Two owners fill a file's view with hints; the error of a third, on a later line, is dropped. */
  lemma {:induction false} CapMayDropSeverest(path: string)
    requires path != ""
    ensures var owners, full, cap := OwnersOf(ThreeLists(path), path), FullView(path), MAX_MERGED_DIAGNOSTICS_PER_FILE;
            && OwnersValid(owners) && IsUnion(full, Lists(owners, owners.Keys, path))
            && |full| == cap + 1 && full[0].severity == Hint && full[cap].severity == Error
                && !NoneOutranked(full[..cap], full[cap..])
  {
    var full, cap := FullView(path), MAX_MERGED_DIAGNOSTICS_PER_FILE;
    ThreeListsGathered(path);
    OwnersOfLists(ThreeLists(path), path);
    SortedByLine(full, path);
    hide Occurrences, Sorted, OwnersValid, OwnersOf, ThreeLists;
    assert full[0] == HintsFrom("a", path, 0)[0] && full[cap] == LateError(path)[0];
    assert Rank(full[cap..][0].severity) < Rank(full[..cap][0].severity);
  }

  ghost predicate AnyHas(owners: Owners, path: string) {
    exists o :: Has(owners, o, path)
  }

  /** The view of one path agrees with the owners. */
  ghost predicate PathMerged(merged: map<string, File>, owners: Owners, path: string) {
    && (path in merged <==> AnyHas(owners, path))
    && (path in merged ==> IsMerged(merged[path], Lists(owners, owners.Keys, path)))
  }

  /** The two agree on an owner's entry for a path. */
  predicate SameEntry(owners: Owners, others: Owners, owner: string, path: string) {
    && Has(owners, owner, path) == Has(others, owner, path)
    && (Has(owners, owner, path) ==> owners[owner][path] == others[owner][path])
  }

  lemma {:induction false} SameLists(owners: Owners, others: Owners, path: string)
    requires forall o :: SameEntry(owners, others, o, path)
    ensures Lists(owners, owners.Keys, path) == Lists(others, others.Keys, path)
  {
    var a, b := Lists(owners, owners.Keys, path), Lists(others, others.Keys, path);
    forall o ensures o in a <==> o in b {
      assert SameEntry(owners, others, o, path);
    }
    forall o | o in a && o in b ensures a[o] == b[o] {
      assert SameEntry(owners, others, o, path);
    }
  }

  /** A change that keeps every owner's entry for a path keeps the view of that path. */
  lemma {:induction false} OtherPathsUntouched(merged: map<string, File>, owners: Owners, owners1: Owners,
                                               other: string)
    requires PathMerged(merged, owners, other)
    requires forall o :: SameEntry(owners, owners1, o, other)
    ensures PathMerged(merged, owners1, other)
  {
    SameLists(owners, owners1, other);
    if AnyHas(owners, other) {
      var o :| Has(owners, o, other);
      assert SameEntry(owners, owners1, o, other);
    }
    if AnyHas(owners1, other) {
      var o :| Has(owners1, o, other);
      assert SameEntry(owners, owners1, o, other);
    }
  }

  // ----- Gathering the lists -----

  lemma {:induction false} ListsGrow(owners: Owners, done: set<string>, o: string, path: string)
    requires o !in done
    ensures Lists(owners, done + {o}, path)
         == if Has(owners, o, path) then Lists(owners, done, path)[o := owners[o][path]] else Lists(owners, done, path)
  {
  }

  /** The diagnostics gathered so far are those of the lists seen so far. */
  ghost predicate Gathered(all: seq<Published>, lists: map<string, File>) {
    forall d :: multiset(all)[d] == Occurrences(lists, d)
  }

  lemma {:induction false} GatherOne(all: seq<Published>, lists: map<string, File>, owner: string, file: File,
                                     path: string)
    requires Gathered(all, lists) && owner !in lists && OwnerFile(file, owner, path)
    ensures Gathered(all + file.diagnostics, lists[owner := file])
  {
    var lists1 := lists[owner := file];
    forall d ensures multiset(all + file.diagnostics)[d] == Occurrences(lists1, d) {
      assert multiset(all + file.diagnostics)[d] == multiset(all)[d] + multiset(file.diagnostics)[d];
      if d in multiset(file.diagnostics) {
        assert d in file.diagnostics;
      }
      assert multiset(all)[d] == Occurrences(lists, d);
    }
  }

  lemma {:induction false} NothingGathered(owners: Owners, path: string)
    ensures var lists := Lists(owners, {}, path);
            && Gathered([], lists) && !AnyTruncated(lists)
            && Sum(lists, Original) == 0
  {
  }

  lemma {:induction false} GatherStep(owners: Owners, done: set<string>, o: string, path: string, all: seq<Published>)
    requires OwnersValid(owners) && o !in done && Has(owners, o, path) && Gathered(all, Lists(owners, done, path))
    ensures var file, lists, lists1 := owners[o][path], Lists(owners, done, path), Lists(owners, done + {o}, path);
            && Gathered(all + file.diagnostics, lists1)
            && Sum(lists1, Original) == Sum(lists, Original) + file.originalCount
            && (AnyTruncated(lists1) <==> AnyTruncated(lists) || file.truncated)
  {
    hide OwnerFile, Gathered, AnyTruncated, Sum;
    var lists := Lists(owners, done, path);
    ListsGrow(owners, done, o, path);
    GatherOne(all, lists, o, owners[o][path], path);
    SumPut(lists, o, owners[o][path], Original);
    assert lists - {o} == lists;
    TruncatedGrows(lists, o, owners[o][path]);
  }

  lemma {:induction false} SortIsUnion(all: seq<Published>, lists: map<string, File>)
    requires Gathered(all, lists)
    ensures IsUnion(SortBy(all, NotAfter), lists) && |SortBy(all, NotAfter)| == |all|
  {
    OrderIsTotal();
    SortBySorts(all, NotAfter);
    forall d ensures multiset(SortBy(all, NotAfter))[d] == Occurrences(lists, d) {
      assert multiset(all)[d] == Occurrences(lists, d);
    }
  }

  lemma {:induction false} NoLists(all: seq<Published>, lists: map<string, File>, owners: Owners, path: string)
    requires OwnersValid(owners) && lists == Lists(owners, owners.Keys, path) && Gathered(all, lists)
    ensures all == [] <==> !AnyHas(owners, path)
  {
    if AnyHas(owners, path) {
      var o :| Has(owners, o, path);
      var d := owners[o][path].diagnostics[0];
      assert d in multiset(owners[o][path].diagnostics);
      assert multiset(all)[d] == Occurrences(lists, d);
      assert d in multiset(all);
    }
    if all != [] {
      assert all[0] in multiset(all);
      assert multiset(all)[all[0]] == Occurrences(lists, all[0]);
      assert Has(owners, all[0].owner, path);
    }
  }

  // ----- What owners publish -----

  function Publish(owner: string, path: string, diagnostics: seq<Diagnostic>): (r: seq<Published>)
    ensures |r| == |diagnostics|
    ensures forall k | 0 <= k < |r| ::
              r[k] == Published(owner, path, diagnostics[k].range, diagnostics[k].severity, diagnostics[k].message)
  {
    if diagnostics == [] then []
    else
      var d := diagnostics[|diagnostics| - 1];
      Publish(owner, path, diagnostics[..|diagnostics| - 1]) + [Published(owner, path, d.range, d.severity, d.message)]
  }

  /** The entry an owner's list becomes: capped, sorted, counted. */
  function EntryOf(owner: string, path: string, diagnostics: seq<Diagnostic>): File {
    var kept := diagnostics[..Min(|diagnostics|, MAX_DIAGNOSTICS_PER_OWNER_FILE)];
    var sorted := SortBy(Publish(owner, path, kept), NotAfter);
    File(sorted, Summarized(sorted), |diagnostics| > MAX_DIAGNOSTICS_PER_OWNER_FILE, |diagnostics|)
  }

  lemma {:induction false} SortedIsOwnerFile(owner: string, path: string, published: seq<Published>, truncated: bool,
                                             originalCount: nat)
    requires published != [] && |published| <= MAX_DIAGNOSTICS_PER_OWNER_FILE
    requires forall k | 0 <= k < |published| :: published[k].owner == owner && published[k].path == path
    ensures var sorted := SortBy(published,
                                 NotAfter); OwnerFile(File(sorted, Summarized(sorted), truncated, originalCount),
                                                      owner, path)
  {
    var sorted := SortBy(published, NotAfter);
    OrderIsTotal();
    SortBySorts(published, NotAfter);
    forall k | 0 <= k < |sorted| ensures sorted[k].owner == owner && sorted[k].path == path {
      assert sorted[k] in multiset(published);
      assert sorted[k] in published;
    }
  }

  lemma {:induction false} EntryIsOwnerFile(owner: string, path: string, diagnostics: seq<Diagnostic>)
    requires diagnostics != []
    ensures OwnerFile(EntryOf(owner, path, diagnostics), owner, path)
  {
    var kept := diagnostics[..Min(|diagnostics|, MAX_DIAGNOSTICS_PER_OWNER_FILE)];
    SortedIsOwnerFile(owner, path, Publish(owner, path, kept), |diagnostics| > MAX_DIAGNOSTICS_PER_OWNER_FILE,
                      |diagnostics|);
  }

  /** The list with every range moved, sorted again. */
  function MoveAll(list: seq<Published>, transform: Range -> Range): (r: seq<Published>)
    ensures |r| == |list|
    ensures forall k | 0 <= k < |r| :: r[k] == list[k].(range := transform(list[k].range))
  {
    if list == [] then []
    else MoveAll(list[..|list| - 1], transform) + [list[|list| - 1].(range := transform(list[|list| - 1].range))]
  }

  function Moved(file: File, transform: Range -> Range): File {
    file.(diagnostics := SortBy(MoveAll(file.diagnostics, transform), NotAfter))
  }

  lemma {:induction false} CountAfterInsert(d: Published, list: seq<Published>, severity: Severity)
    ensures Count(Insert(d, list, NotAfter), severity)
         == Count(list, severity) + if d.severity == severity then 1 else 0
  {
    if list == [] || NotAfter(d, list[0]) {
      CountConcat([d], list, severity);
    } else {
      CountAfterInsert(d, list[1..], severity);
      CountConcat([list[0]], Insert(d, list[1..], NotAfter), severity);
      CountConcat([list[0]], list[1..], severity);
      assert list == [list[0]] + list[1..];
    }
    CountOne(d, severity);
  }

  lemma {:induction false} CountOne(d: Published, severity: Severity)
    ensures Count([d], severity) == if d.severity == severity then 1 else 0
  {
    assert [d][..0] == [];
  }

  lemma {:induction false} CountConcat(a: seq<Published>, b: seq<Published>, severity: Severity)
    ensures Count(a + b, severity) == Count(a, severity) + Count(b, severity)
  {
    if b == [] {
      assert a + b == a;
    } else {
      CountConcat(a, b[..|b| - 1], severity);
      assert (a + b)[..|a + b| - 1] == a + b[..|b| - 1];
    }
  }

  lemma {:induction false} CountSorted(list: seq<Published>, severity: Severity)
    ensures Count(SortBy(list, NotAfter), severity) == Count(list, severity)
  {
    if list != [] {
      CountSorted(list[1..], severity);
      CountAfterInsert(list[0], SortBy(list[1..], NotAfter), severity);
      CountConcat([list[0]], list[1..], severity);
      CountOne(list[0], severity);
      assert list == [list[0]] + list[1..];
    }
  }

  lemma {:induction false} CountMoved(list: seq<Published>, transform: Range -> Range, severity: Severity)
    ensures Count(MoveAll(list, transform), severity) == Count(list, severity)
  {
    if list != [] {
      CountMoved(list[..|list| - 1], transform, severity);
      assert MoveAll(list, transform)[..|list| - 1] == MoveAll(list[..|list| - 1], transform);
    }
  }

  /** Moving ranges keeps the counts: the summary of the entry need not be computed again. */
  lemma {:induction false} MovedIsOwnerFile(file: File, transform: Range -> Range, owner: string, path: string)
    requires OwnerFile(file, owner, path)
    ensures OwnerFile(Moved(file, transform), owner, path)
  {
    var list := MoveAll(file.diagnostics, transform);
    SortedIsOwnerFile(owner, path, list, file.truncated, file.originalCount);
    forall severity ensures Count(SortBy(list, NotAfter), severity) == Count(file.diagnostics, severity) {
      CountSorted(list, severity);
      CountMoved(file.diagnostics, transform, severity);
    }
  }

  // ----- The owners map -----

  function With(owners: Owners, owner: string, path: string, file: File): Owners {
    owners[owner := (if owner in owners then owners[owner] else map[])[path := file]]
  }

  /** An owner whose last list goes is dropped. */
  function Less(owners: Owners, owner: string, path: string): Owners {
    if owner !in owners then owners
    else if owners[owner] - {path} == map[] then owners - {owner}
    else owners[owner := owners[owner] - {path}]
  }

  lemma {:induction false} WithIsValid(owners: Owners, owner: string, path: string, file: File)
    requires OwnersValid(owners) && owner != "" && path != "" && OwnerFile(file, owner, path)
    ensures OwnersValid(With(owners, owner, path, file))
    ensures forall o, p | p != path :: SameEntry(owners, With(owners, owner, path, file), o, p)
  {
    hide OwnerFile;
    assert path in With(owners, owner, path, file)[owner];
  }

  lemma {:induction false} LessIsValid(owners: Owners, owner: string, path: string)
    requires OwnersValid(owners)
    ensures OwnersValid(Less(owners, owner, path))
    ensures forall o, p | p != path :: SameEntry(owners, Less(owners, owner, path), o, p)
    ensures !Has(Less(owners, owner, path), owner, path)
  {
    hide OwnerFile;
    forall o, p | p != path ensures SameEntry(owners, Less(owners, owner, path), o, p) {
      assert owner in owners && p in owners[owner] ==> p in owners[owner] - {path};
    }
  }

  // ----- The store -----

  class DiagnosticsStore {
    var owners: Owners
    var merged: map<string, File>
    var counts: Summary
    var truncatedFileCount: nat
    var revision: nat

    ghost predicate CountsAgree()
      reads this
    {
      && counts.errors == Sum(merged, Errors)
      && counts.warnings == Sum(merged, Warnings)
      && counts.infos == Sum(merged, Infos)
      && counts.hints == Sum(merged, Hints)
      && truncatedFileCount == Sum(merged, Truncated)
    }

    /** The merged view of every path is the capped sorted union of the owners' lists; the severity counters are
        the sums of the counts before capping; the truncated counter is exact. */
    ghost predicate Valid()
      reads this
    {
      OwnersValid(owners) && (forall p :: PathMerged(merged, owners, p)) && CountsAgree()
    }

    constructor ()
      ensures Valid() && owners == map[] && merged == map[] && revision == 0
    {
      owners, merged, counts, truncatedFileCount, revision := map[], map[], Summary(0, 0, 0, 0), 0, 0;
    }

    method AddSummary(summary: Summary)
      modifies this`counts
      ensures counts == Summary(old(counts).errors + summary.errors, old(counts).warnings + summary.warnings,
                                old(counts).infos + summary.infos, old(counts).hints + summary.hints)
    {
      counts := Summary(counts.errors + summary.errors, counts.warnings + summary.warnings,
                        counts.infos + summary.infos, counts.hints + summary.hints);
    }

    /** The subtraction is written to stop at zero, and never gets there. */
    method RemoveSummary(summary: Summary)
      requires summary.errors <= counts.errors && summary.warnings <= counts.warnings
      requires summary.infos <= counts.infos && summary.hints <= counts.hints
      modifies this`counts
      ensures counts == Summary(old(counts).errors - summary.errors, old(counts).warnings - summary.warnings,
                                old(counts).infos - summary.infos, old(counts).hints - summary.hints)
    {
      counts := Summary(counts.errors - Min(counts.errors, summary.errors),
                        counts.warnings - Min(counts.warnings, summary.warnings),
                        counts.infos - Min(counts.infos, summary.infos),
                            counts.hints - Min(counts.hints, summary.hints));
    }

    lemma {:induction false} MergedPartOfSums(path: string)
      requires CountsAgree() && path in merged
      ensures counts.errors == merged[path].summary.errors + Sum(merged - {path}, Errors)
      ensures counts.warnings == merged[path].summary.warnings + Sum(merged - {path}, Warnings)
      ensures counts.infos == merged[path].summary.infos + Sum(merged - {path}, Infos)
      ensures counts.hints == merged[path].summary.hints + Sum(merged - {path}, Hints)
      ensures truncatedFileCount == (if merged[path].truncated then 1 else 0) + Sum(merged - {path}, Truncated)
    {
      SumRemove(merged, path, Errors);
      SumRemove(merged, path, Warnings);
      SumRemove(merged, path, Infos);
      SumRemove(merged, path, Hints);
      SumRemove(merged, path, Truncated);
    }

    /** Drops the view of a path, if there is one. */
    method DropPath(path: string)
      requires CountsAgree()
      modifies this`merged, this`counts, this`truncatedFileCount, this`revision
      ensures CountsAgree() && merged == old(merged) - {path}
      ensures revision == old(revision) + if path in old(merged) then 1 else 0
    {
      if path in merged {
        MergedPartOfSums(path);
        RemoveSummary(merged[path].summary);
        if merged[path].truncated {
          truncatedFileCount := truncatedFileCount - 1;
        }
        merged := merged - {path};
        revision := revision + 1;
      } else {
        assert merged - {path} == merged;
      }
    }

    /** Puts a view in place of the one there, if it differs. */
    method PutPath(path: string, file: File)
      requires CountsAgree()
      modifies this`merged, this`counts, this`truncatedFileCount, this`revision
      ensures CountsAgree() && merged == old(merged)[path := file]
      ensures revision == old(revision) + if merged == old(merged) then 0 else 1
    {
      ghost var before := merged;
      SumsOfPut(merged, path, file);
      if path !in merged {
        assert merged - {path} == merged;
        AddSummary(file.summary);
        if file.truncated {
          truncatedFileCount := truncatedFileCount + 1;
        }
        merged := merged[path := file];
        revision := revision + 1;
        return;
      }
      if merged[path] == file {
        assert merged[path := file] == merged;
        return;
      }
      MergedPartOfSums(path);
      RemoveSummary(merged[path].summary);
      AddSummary(file.summary);
      if merged[path].truncated && !file.truncated {
        truncatedFileCount := truncatedFileCount - 1;
      } else if !merged[path].truncated && file.truncated {
        truncatedFileCount := truncatedFileCount + 1;
      }
      merged := merged[path := file];
      assert merged[path] != before[path];
      revision := revision + 1;
    }

    /** Gathers the lists of a path, owner by owner in any order. */
    method GatherLists(path: string) returns (all: seq<Published>, truncated: bool, originalCount: nat)
      requires OwnersValid(owners)
      ensures var lists := Lists(owners, owners.Keys, path);
              Gathered(all, lists) && truncated == AnyTruncated(lists) && originalCount == Sum(lists, Original)
    {
      hide OwnersValid, OwnerFile, Lists;
      all, truncated, originalCount := [], false, 0;
      NothingGathered(owners, path);
      hide Gathered, AnyTruncated, Lists, OwnersValid;
      var left := owners.Keys;
      ghost var done: set<string> := {};
      while left != {}
        invariant left + done == owners.Keys && left !! done
        invariant Gathered(all, Lists(owners, done, path))
        invariant truncated == AnyTruncated(Lists(owners, done, path))
        invariant originalCount == Sum(Lists(owners, done, path), Original)
        decreases |left|
      {
        var o :| o in left;
        left := left - {o};
        if path in owners[o] {
          var file := owners[o][path];
          GatherStep(owners, done, o, path, all);
          all := all + file.diagnostics;
          truncated := truncated || file.truncated;
          originalCount := originalCount + file.originalCount;
        } else {
          ListsGrow(owners, done, o, path);
        }
        done := done + {o};
      }
      assert done == owners.Keys;
    }

    /** Rebuilds the view of a path after the owners' lists for it changed. */
    method RebuildPath(path: string)
      requires OwnersValid(owners) && CountsAgree() && path != ""
      requires forall p | p != path :: PathMerged(merged, owners, p)
      modifies this`merged, this`counts, this`truncatedFileCount, this`revision
      ensures Valid()
      ensures revision == old(revision) + if merged == old(merged) then 0 else 1
    {
      var all, truncated, originalCount := GatherLists(path);
      ghost var lists := Lists(owners, owners.Keys, path);
      NoLists(all, lists, owners, path);
      if all == [] {
        assert path !in merged ==> merged - {path} == merged;
        DropPath(path);
      } else {
        var full := SortBy(all, NotAfter);
        SortIsUnion(all, lists);
        var summary := SummarizeDiagnostics(full);
        var kept := full;
        if |full| > MAX_MERGED_DIAGNOSTICS_PER_FILE {
          kept := full[..MAX_MERGED_DIAGNOSTICS_PER_FILE];
          truncated := true;
        }
        var file := File(kept, summary, truncated, originalCount);
        assert file == Capped(full, AnyTruncated(lists), Sum(lists, Original));
        PutPath(path, file);
      }
      forall p ensures PathMerged(merged, owners, p) {
        if p != path {
          assert PathMerged(old(merged), owners, p);
        }
      }
    }

    method ReplaceForOwnerFile(owner: string, path: string, diagnostics: seq<Diagnostic>) returns (changed: bool)
      requires Valid()
      modifies this
      ensures Valid()
      ensures owners == if owner == "" || path == "" then old(owners)
                        else if diagnostics == [] then Less(old(owners), owner, path)
                        else With(old(owners), owner, path, EntryOf(owner, path, diagnostics))
      ensures changed <==> owners != old(owners)
    {
      if owner == "" || path == "" {
        return false;
      }
      if diagnostics == [] {
        changed := RemoveEntry(owner, path);
        return;
      }
      EntryIsOwnerFile(owner, path, diagnostics);
      var next := EntryOf(owner, path, diagnostics);
      if Has(owners, owner, path) && owners[owner][path] == next {
        assert owners[owner][path := next] == owners[owner];
        assert With(owners, owner, path, next) == owners;
        return false;
      }
      PutEntry(owner, path, next);
      changed := true;
    }

    method PutEntry(owner: string, path: string, file: File)
      requires Valid() && owner != "" && path != "" && OwnerFile(file, owner, path)
      modifies this
      ensures Valid() && owners == With(old(owners), owner, path, file)
      ensures Has(owners, owner, path) && owners[owner][path] == file
    {
      ghost var before := owners;
      WithIsValid(owners, owner, path, file);
      owners := With(owners, owner, path, file);
      forall p | p != path ensures PathMerged(merged, owners, p) {
        OtherPathsUntouched(merged, before, owners, p);
      }
      RebuildPath(path);
    }

    method RemoveEntry(owner: string, path: string) returns (removed: bool)
      requires Valid() && path != ""
      modifies this
      ensures Valid() && owners == Less(old(owners), owner, path)
      ensures removed == Has(old(owners), owner, path) && (removed <==> owners != old(owners))
    {
      hide Summarized, Sum, NotAfter, PathMerged;
      ghost var before := owners;
      LessIsValid(owners, owner, path);
      if !Has(owners, owner, path) {
        assert owner in owners ==> owners[owner] - {path} == owners[owner];
        return false;
      }
      owners := Less(owners, owner, path);
      forall p | p != path ensures PathMerged(merged, owners, p) {
        OtherPathsUntouched(merged, before, owners, p);
      }
      RebuildPath(path);
      removed := true;
    }

    /** Moves the ranges of an owner's list; an owner or path without a list is left alone. */
    method TransformOwnerFile(owner: string, path: string, transform: Range -> Range) returns (transformed: bool)
      requires Valid()
      modifies this
      ensures Valid() && transformed == Has(old(owners), owner, path)
      ensures owners == if transformed then With(old(owners), owner, path,
                                                 Moved(old(owners)[owner][path], transform)) else old(owners)
    {
      if !Has(owners, owner, path) {
        return false;
      }
      MovedIsOwnerFile(owners[owner][path], transform, owner, path);
      var file := Moved(owners[owner][path], transform);
      PutEntry(owner, path, file);
      transformed := true;
    }

    method Clear()
      requires Valid()
      modifies this
      ensures Valid() && owners == map[] && merged == map[]
      ensures revision == old(revision) + if old(owners) == map[] && old(merged) == map[] then 0 else 1
    {
      if owners == map[] && merged == map[] {
        return;
      }
      owners, merged, counts, truncatedFileCount := map[], map[], Summary(0, 0, 0, 0), 0;
      revision := revision + 1;
    }
  }

  lemma {:induction false} TruncatedGrows(lists: map<string, File>, o: string, file: File)
    requires o !in lists
    ensures AnyTruncated(lists[o := file]) <==> AnyTruncated(lists) || file.truncated
  {
    if AnyTruncated(lists) {
      var k :| k in lists && lists[k].truncated;
      assert k in lists[o := file] && lists[o := file][k].truncated;
    }
    if file.truncated {
      assert o in lists[o := file] && lists[o := file][o].truncated;
    }
  }

  lemma {:induction false} SumsOfPut(merged: map<string, File>, path: string, file: File)
    ensures forall total :: Sum(merged[path := file], total) == Of(file, total) + Sum(merged - {path}, total)
  {
    forall total ensures Sum(merged[path := file], total) == Of(file, total) + Sum(merged - {path}, total) {
      SumPut(merged, path, file, total);
    }
  }
}
