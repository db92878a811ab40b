/** Grouping the two sides' changes into hunks: a sweep over the changes in order, where touching
    counts as interacting.  The hunks are the connected components of the touch relation. */
module MergeGroups {
  import opened Basics
  import opened Sorting
  import opened SideChanges

  datatype MergeSide = Incoming | Current

  datatype TaggedChange = Tagged(side: MergeSide, change: SideChange) {
    function Start(): nat { change.baseStart }
    function End(): nat { change.baseEnd }
  }

  // ----- Specification -----

  function TagAll(changes: seq<SideChange>, side: MergeSide): (tagged: seq<TaggedChange>)
    ensures |tagged| == |changes|
    ensures forall k | 0 <= k < |changes| :: tagged[k] == Tagged(side, changes[k])
  {
    if changes == [] then [] else [Tagged(side, changes[0])] + TagAll(changes[1..], side)
  }

  /** By base start, then base end, then incoming before current. */
  predicate NotAfter(x: TaggedChange, y: TaggedChange) {
    if x.Start() != y.Start() then x.Start() < y.Start()
    else if x.End() != y.End() then x.End() < y.End()
    else x.side == Incoming || y.side == Current
  }

  function InOrder(incoming: seq<SideChange>, current: seq<SideChange>): seq<TaggedChange> {
    SortBy(TagAll(incoming, Incoming) + TagAll(current, Current), NotAfter)
  }

  /** The sweep from change `i` on, with `group` open and reaching to `maxEnd`. */
  function Sweep(all: seq<TaggedChange>, i: nat, group: seq<TaggedChange>, maxEnd: nat): seq<seq<TaggedChange>>
    requires i <= |all|
    decreases |all| - i
  {
    if i == |all| then if group == [] then [] else [group]
    else if group == [] || all[i].Start() <= maxEnd then
      Sweep(all, i + 1, group + [all[i]], Max(maxEnd, all[i].End()))
    else [group] + Sweep(all, i + 1, [all[i]], Max(0, all[i].End()))
  }

  function Groups(all: seq<TaggedChange>): seq<seq<TaggedChange>> {
    Sweep(all, 0, [], 0)
  }

  function MaxEnd(group: seq<TaggedChange>): nat {
    if group == [] then 0 else Max(MaxEnd(group[..|group| - 1]), group[|group| - 1].End())
  }

  function MinStart(group: seq<TaggedChange>): nat
    requires group != []
  {
    if |group| == 1 then group[0].Start() else Min(MinStart(group[..|group| - 1]), group[|group| - 1].Start())
  }

  /** The changes of one side, in order. */
  function OfSide(all: seq<TaggedChange>, side: MergeSide): seq<SideChange> {
    if all == [] then [] else (if all[0].side == side then [all[0].change] else []) + OfSide(all[1..], side)
  }

  function Flatten(groups: seq<seq<TaggedChange>>): seq<TaggedChange> {
    if groups == [] then [] else groups[0] + Flatten(groups[1..])
  }

  // ----- The order -----

  lemma {:induction false} NotAfterIsPreorder()
    ensures TotalPreorder(NotAfter)
  {
  }

  /** Later changes of a side start later. */
  ghost predicate SideAscends(all: seq<TaggedChange>, side: MergeSide) {
    forall i, k | 0 <= i < k < |all| && all[i].side == side && all[k].side == side :: all[i].Start() < all[k].Start()
  }

  lemma {:induction false} OfSideCons(x: TaggedChange, rest: seq<TaggedChange>, side: MergeSide)
    ensures OfSide([x] + rest, side) == (if x.side == side then [x.change] else []) + OfSide(rest, side)
  {
    assert ([x] + rest)[1..] == rest;
  }

  lemma {:induction false} OfSideConcat(a: seq<TaggedChange>, b: seq<TaggedChange>, side: MergeSide)
    ensures OfSide(a + b, side) == OfSide(a, side) + OfSide(b, side)
  {
    if a == [] {
      assert a + b == b;
    } else {
      var x, rest := a[0], a[1..];
      OfSideConcat(rest, b, side);
      OfSideCons(x, rest, side);
      OfSideCons(x, rest + b, side);
      assert a == [x] + rest;
      Associate([x], rest, b);
      hide OfSide;
      Associate(if x.side == side then [x.change] else [], OfSide(rest, side), OfSide(b, side));
    }
  }

  lemma {:induction false} OfSideMore(a: seq<TaggedChange>, x: TaggedChange, side: MergeSide)
    ensures OfSide(a + [x], side) == OfSide(a, side) + if x.side == side then [x.change] else []
  {
    OfSideConcat(a, [x], side);
    assert [x][1..] == [];
  }

  lemma {:induction false} OfSideTagged(changes: seq<SideChange>, side: MergeSide, other: MergeSide)
    ensures OfSide(TagAll(changes, side), other) == if side == other then changes else []
  {
    if changes != [] {
      OfSideTagged(changes[1..], side, other);
      assert TagAll(changes, side)[1..] == TagAll(changes[1..], side);
    }
  }

  /** Inserting a change that starts before every other of its side puts it first on that side. */
  lemma {:induction false} InsertOfSide(x: TaggedChange, all: seq<TaggedChange>, side: MergeSide)
    requires forall k | 0 <= k < |all| && all[k].side == x.side :: x.Start() < all[k].Start()
    ensures OfSide(Insert(x, all, NotAfter), side) == (if x.side == side then [x.change] else []) + OfSide(all, side)
  {
    if all == [] || NotAfter(x, all[0]) {
      assert ([x] + all)[1..] == all;
    } else {
      assert all[0].side != x.side;
      InsertOfSide(x, all[1..], side);
      var rest := Insert(x, all[1..], NotAfter);
      assert ([all[0]] + rest)[1..] == rest;
    }
  }

  /** Sorting keeps each side's own order. */
  lemma {:induction false} SortOfSide(all: seq<TaggedChange>, side: MergeSide)
    requires SideAscends(all, Incoming) && SideAscends(all, Current)
    ensures OfSide(SortBy(all, NotAfter), side) == OfSide(all, side)
  {
    if all != [] {
      var rest := SortBy(all[1..], NotAfter);
      SortOfSide(all[1..], side);
      NotAfterIsPreorder();
      SortBySorts(all[1..], NotAfter);
      PermutationKeepsElements(rest, all[1..]);
      forall k | 0 <= k < |rest| && rest[k].side == all[0].side ensures all[0].Start() < rest[k].Start() {
        assert rest[k] in all[1..];
        var m :| 0 <= m < |all[1..]| && all[1..][m] == rest[k];
        assert all[m + 1].side == all[0].side;
      }
      InsertOfSide(all[0], rest, side);
    }
  }

  // ----- The groups -----

  /** Changes by ascending start, each a proper interval. */
  ghost predicate Ordered(all: seq<TaggedChange>) {
    && (forall k | 0 <= k < |all| :: all[k].Start() <= all[k].End())
    && (forall k | 0 < k < |all| :: all[k - 1].Start() <= all[k].Start())
  }

  lemma {:induction false} OrderedPairs(all: seq<TaggedChange>, i: nat, k: nat)
    requires Ordered(all) && i <= k < |all|
    ensures all[i].Start() <= all[k].Start()
  {
    if i < k {
      OrderedPairs(all, i, k - 1);
    }
  }

  /** A group is one stretch of touching changes: each change starts no later than the ones before
      it reach. */
  ghost predicate Chained(group: seq<TaggedChange>) {
    var n := |group| - 1;
    group != [] && (n > 0 ==> group[n].Start() <= MaxEnd(group[..n]) && Chained(group[..n]))
  }

  lemma {:induction false} Snoc(group: seq<TaggedChange>, x: TaggedChange)
    ensures MaxEnd(group + [x]) == Max(MaxEnd(group), x.End())
    ensures group != [] ==> MinStart(group + [x]) == Min(MinStart(group), x.Start())
  {
    assert (group + [x])[..|group|] == group;
  }

  lemma {:induction false} ChainedSnoc(group: seq<TaggedChange>, x: TaggedChange)
    requires group == [] || (Chained(group) && x.Start() <= MaxEnd(group))
    ensures Chained(group + [x])
  {
    assert (group + [x])[..|group|] == group;
  }

  lemma {:induction false} ChainedPrefix(group: seq<TaggedChange>, k: nat)
    requires Chained(group) && k < |group|
    ensures Chained(group[..k + 1])
  {
    var n := |group| - 1;
    if k < n {
      ChainedPrefix(group[..n], k);
      assert group[..n][..k + 1] == group[..k + 1];
    } else {
      assert group[..k + 1] == group;
    }
  }

  /** Every later group starts past everything the groups before it reach. */
  ghost predicate Apart(groups: seq<seq<TaggedChange>>, reach: int)
    decreases |groups|
  {
    groups != [] ==>
      groups[0] != [] && reach < groups[0][0].Start() && Apart(groups[1..], MaxEnd(groups[0]))
  }

  /** What the sweep is about to produce. */
  ghost predicate SweepState(all: seq<TaggedChange>, i: nat, group: seq<TaggedChange>, maxEnd: nat) {
    && i <= |all|
    && |group| <= i && group == all[i - |group|..i]
    && maxEnd == MaxEnd(group)
    && (group != [] ==> Chained(group))
    && (group == [] ==> i == 0)
  }

  lemma {:induction false} SweepJoin(all: seq<TaggedChange>, i: nat, group: seq<TaggedChange>, maxEnd: nat)
    requires SweepState(all, i, group, maxEnd) && i < |all| && (group == [] || all[i].Start() <= maxEnd)
    ensures SweepState(all, i + 1, group + [all[i]], Max(maxEnd, all[i].End()))
  {
    Snoc(group, all[i]);
    ChainedSnoc(group, all[i]);
    SliceSnoc(all, i - |group|, i);
  }

  lemma {:induction false} SliceSnoc<T>(all: seq<T>, from: nat, i: nat)
    requires from <= i < |all|
    ensures all[from..i] + [all[i]] == all[from..i + 1]
  {
  }

  lemma {:induction false} SweepOpen(all: seq<TaggedChange>, i: nat)
    requires i < |all|
    ensures SweepState(all, i + 1, [all[i]], Max(0, all[i].End()))
  {
    Snoc([], all[i]);
    ChainedSnoc([], all[i]);
    assert [] + [all[i]] == [all[i]] == all[i..i + 1];
  }

  /** The sweep cuts the ordered changes into consecutive groups of touching changes, apart from
      each other. */
  lemma {:induction false} SweepGroups(all: seq<TaggedChange>, i: nat, group: seq<TaggedChange>, maxEnd: nat)
    requires SweepState(all, i, group, maxEnd)
    ensures Flatten(Sweep(all, i, group, maxEnd)) == group + all[i..]
    ensures forall g | g in Sweep(all, i, group, maxEnd) :: Chained(g)
    decreases |all| - i
  {
    if i == |all| {
      assert all[i..] == [];
      if group != [] {
        assert [group][1..] == [];
        assert group + [] == group;
      }
    } else if group == [] || all[i].Start() <= maxEnd {
      SweepJoin(all, i, group, maxEnd);
      SweepGroups(all, i + 1, group + [all[i]], Max(maxEnd, all[i].End()));
      assert group + [all[i]] + all[i + 1..] == group + all[i..];
    } else {
      SweepOpen(all, i);
      var rest := Sweep(all, i + 1, [all[i]], Max(0, all[i].End()));
      SweepGroups(all, i + 1, [all[i]], Max(0, all[i].End()));
      assert ([group] + rest)[1..] == rest;
      assert [all[i]] + all[i + 1..] == all[i..];
    }
  }

  lemma {:induction false} SweepApart(all: seq<TaggedChange>, i: nat, group: seq<TaggedChange>, maxEnd: nat, reach: int)
    requires SweepState(all, i, group, maxEnd)
    requires group != [] ==> reach < group[0].Start()
    requires group == [] ==> reach < 0
    ensures Apart(Sweep(all, i, group, maxEnd), reach)
    decreases |all| - i
  {
    if i == |all| {
    } else if group == [] || all[i].Start() <= maxEnd {
      SweepJoin(all, i, group, maxEnd);
      SweepApart(all, i + 1, group + [all[i]], Max(maxEnd, all[i].End()), reach);
    } else {
      SweepOpen(all, i);
      SweepApart(all, i + 1, [all[i]], Max(0, all[i].End()), maxEnd);
      var rest := Sweep(all, i + 1, [all[i]], Max(0, all[i].End()));
      assert ([group] + rest)[1..] == rest;
    }
  }

  lemma {:induction false} GroupsPartition(all: seq<TaggedChange>)
    ensures Flatten(Groups(all)) == all
    ensures forall g | g in Groups(all) :: Chained(g)
    ensures Apart(Groups(all), -1)
  {
    assert all[0..0] == [] && all[0..] == all && [] + all == all;
    SweepGroups(all, 0, [], 0);
    SweepApart(all, 0, [], 0, -1);
  }

  // ----- Connected components -----

  /** Two changes touch when no base line lies between them. */
  predicate Touch(x: TaggedChange, y: TaggedChange) {
    x.Start() <= y.End() && y.Start() <= x.End()
  }

  lemma {:induction false} MaxEndAttained(group: seq<TaggedChange>) returns (m: nat)
    requires group != []
    ensures m < |group| && group[m].End() == MaxEnd(group)
  {
    var n := |group| - 1;
    if n == 0 || MaxEnd(group[..n]) < group[n].End() {
      m := n;
      if n == 0 {
        assert group[..0] == [];
      }
    } else {
      m := MaxEndAttained(group[..n]);
    }
  }

  lemma {:induction false} MaxEndBounds(group: seq<TaggedChange>, k: nat)
    requires k < |group|
    ensures group[k].End() <= MaxEnd(group)
  {
    var n := |group| - 1;
    if k < n {
      MaxEndBounds(group[..n], k);
    }
  }

  /** In an ordered group every change touches an earlier one. */
  lemma {:induction false} TouchesEarlier(group: seq<TaggedChange>, k: nat) returns (m: nat)
    requires Ordered(group) && Chained(group) && 0 < k < |group|
    ensures m < k && Touch(group[m], group[k])
  {
    ChainedPrefix(group, k);
    assert group[..k + 1][..k] == group[..k];
    m := MaxEndAttained(group[..k]);
    OrderedPairs(group, m, k);
  }

  /** A group is connected: however its changes are divided in two, some change of one part touches
      one of the other. */
  lemma {:induction false} GroupConnected(group: seq<TaggedChange>, part: set<nat>, a: nat, b: nat)
      returns (i: nat, j: nat)
    requires Ordered(group) && Chained(group)
    requires a < |group| && b < |group| && a in part && b !in part
    ensures i < |group| && j < |group| && i in part && j !in part && Touch(group[i], group[j])
  {
    var k := 1;
    while k < |group| && (k in part) == (0 in part)
      invariant 1 <= k <= |group|
      invariant forall m: nat | m < k :: (m in part) == (0 in part)
    {
      k := k + 1;
    }
    assert k < |group| by {
      assert (a in part) != (b in part);
    }
    var m := TouchesEarlier(group, k);
    i, j := if k in part then k else m, if k in part then m else k;
  }

  /** Changes of different groups do not touch: the earlier group ends before any of the later one starts. */
  lemma {:induction false} GroupsDoNotTouch(groups: seq<seq<TaggedChange>>, reach: int, x: nat, y: nat, i: nat, j: nat)
    requires Apart(groups, reach) && Ordered(Flatten(groups))
    requires x < y < |groups| && i < |groups[x]| && j < |groups[y]|
    ensures groups[x][i].End() <= MaxEnd(groups[x]) < groups[y][j].Start()
    ensures !Touch(groups[x][i], groups[y][j])
    decreases |groups|
  {
    var rest := Flatten(groups[1..]);
    OrderedSuffix(groups[0], rest);
    if x == 0 {
      MaxEndBounds(groups[0], i);
      StartsBeyond(groups[1..], MaxEnd(groups[0]), y - 1, j);
    } else {
      GroupsDoNotTouch(groups[1..], MaxEnd(groups[0]), x - 1, y - 1, i, j);
    }
  }

  /** The change leaves this base line alone: it ends by it or starts after it. */
  predicate LeavesLine(change: TaggedChange, line: nat) {
    change.End() <= line || line < change.Start()
  }

  lemma {:induction false} GroupsAreOrdered(groups: seq<seq<TaggedChange>>, reach: int, g: nat)
    requires Apart(groups, reach) && Ordered(Flatten(groups)) && g < |groups|
    ensures groups[g] != [] && Ordered(groups[g])
    decreases |groups|
  {
    OrderedSuffix(groups[0], Flatten(groups[1..]));
    if g > 0 {
      GroupsAreOrdered(groups[1..], MaxEnd(groups[0]), g - 1);
    }
  }

  /** Where a group ends and another follows, there is a base line that neither side changed. */
  lemma {:induction false} LineAfterGroup(groups: seq<seq<TaggedChange>>, reach: int, x: nat)
    requires Apart(groups, reach) && Ordered(Flatten(groups)) && x < |groups|
    ensures forall g, i | 0 <= g < |groups| && 0 <= i < |groups[g]| :: LeavesLine(groups[g][i], MaxEnd(groups[x]))
    ensures x + 1 < |groups| ==> groups[x + 1] != [] && MaxEnd(groups[x]) < groups[x + 1][0].Start()
  {
    GroupsAreOrdered(groups, reach, x);
    forall g: nat, i: nat | g < |groups| && i < |groups[g]| ensures LeavesLine(groups[g][i], MaxEnd(groups[x])) {
      if g < x {
        GroupsDoNotTouch(groups, reach, g, x, i, 0);
        MaxEndBounds(groups[x], 0);
      } else if g == x {
        MaxEndBounds(groups[x], i);
      } else {
        GroupsDoNotTouch(groups, reach, x, g, 0, i);
      }
    }
    if x + 1 < |groups| {
      GroupsAreOrdered(groups, reach, x + 1);
      GroupsDoNotTouch(groups, reach, x, x + 1, 0, 0);
    }
  }

  lemma {:induction false} InSomeGroup(groups: seq<seq<TaggedChange>>, change: TaggedChange) returns (g: nat, i: nat)
    requires change in Flatten(groups)
    ensures g < |groups| && i < |groups[g]| && groups[g][i] == change
  {
    if change in groups[0] {
      g := 0;
      i :| i < |groups[0]| && groups[0][i] == change;
    } else {
      g, i := InSomeGroup(groups[1..], change);
      g := g + 1;
    }
  }

  lemma {:induction false} OrderedSuffix(a: seq<TaggedChange>, b: seq<TaggedChange>)
    requires Ordered(a + b)
    ensures Ordered(a) && Ordered(b)
  {
    forall k | 0 <= k < |a| ensures a[k].Start() <= a[k].End() {
      assert (a + b)[k] == a[k];
    }
    forall k | 0 < k < |a| ensures a[k - 1].Start() <= a[k].Start() {
      assert (a + b)[k] == a[k] && (a + b)[k - 1] == a[k - 1];
    }
    forall k | 0 <= k < |b| ensures b[k].Start() <= b[k].End() {
      assert (a + b)[|a| + k] == b[k];
    }
    forall k | 0 < k < |b| ensures b[k - 1].Start() <= b[k].Start() {
      assert (a + b)[|a| + k] == b[k] && (a + b)[|a| + k - 1] == b[k - 1];
    }
  }

  lemma {:induction false} StartsBeyond(groups: seq<seq<TaggedChange>>, reach: int, y: nat, j: nat)
    requires Apart(groups, reach) && Ordered(Flatten(groups)) && y < |groups| && j < |groups[y]|
    ensures reach < groups[y][j].Start()
    decreases |groups|
  {
    var rest := Flatten(groups[1..]);
    OrderedSuffix(groups[0], rest);
    if y == 0 {
      OrderedPairs(groups[0], 0, j);
    } else {
      StartsBeyond(groups[1..], MaxEnd(groups[0]), y - 1, j);
      MaxEndBounds(groups[0], 0);
    }
  }
}
