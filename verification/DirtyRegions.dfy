/** Coalescing dirty rectangles: clips that overlap or nearly touch are merged in place until no two
    do, then sorted and measured against the surface. */
module DirtyRegions {
  import opened Basics
  import opened Sorting

  const MERGE_GAP_PIXELS := 1
  const INT_MAX := 0x7fff_ffff
  const INT_MIN := -0x8000_0000

  datatype Rect = Rect(x: int, y: int, w: int, h: int) {
    function Right(): int { x + w }
    function Bottom(): int { y + h }
    function Area(): int { w * h }
  }

  /** The surface every clip is clamped to before it gets here. */
  datatype Surface = Surface(width: int, height: int)

  predicate OverlapOrNearlyTouch(a: Rect, b: Rect) {
    && a.x <= b.Right() + MERGE_GAP_PIXELS
    && b.x <= a.Right() + MERGE_GAP_PIXELS
    && a.y <= b.Bottom() + MERGE_GAP_PIXELS
    && b.y <= a.Bottom() + MERGE_GAP_PIXELS
  }

  function Min(x: int, y: int): int { if x < y then x else y }

  function Max(x: int, y: int): int { if x < y then y else x }

  function ClampInt(x: int): int {
    if x < INT_MIN then INT_MIN else if INT_MAX < x then INT_MAX else x
  }

  /** The bounding box of two rectangles, each part clamped to the range of `int`. */
  function Union(a: Rect, b: Rect): Rect {
    var left, top := Min(a.x, b.x), Min(a.y, b.y);
    var right, bottom := Max(a.Right(), b.Right()), Max(a.Bottom(), b.Bottom());
    Rect(ClampInt(left), ClampInt(top), ClampInt(right - left), ClampInt(bottom - top))
  }

  // ----- Specification -----

  /** A non-empty clip inside the surface. */
  predicate IsClip(s: Surface, r: Rect) {
    && 0 <= r.x && 0 < r.w && r.Right() <= s.width <= INT_MAX
    && 0 <= r.y && 0 < r.h && r.Bottom() <= s.height <= INT_MAX
  }

  ghost predicate AllClips(s: Surface, rects: seq<Rect>) {
    forall k | 0 <= k < |rects| :: IsClip(s, rects[k])
  }

  predicate Contains(outer: Rect, inner: Rect) {
    && outer.x <= inner.x && inner.Right() <= outer.Right()
    && outer.y <= inner.y && inner.Bottom() <= outer.Bottom()
  }

  /** No two rectangles overlap or nearly touch. */
  ghost predicate Separated(rects: seq<Rect>) {
    forall i, j | 0 <= i < j < |rects| :: !OverlapOrNearlyTouch(rects[i], rects[j])
  }

  ghost predicate Inside(r: Rect, cover: seq<Rect>) {
    exists k :: 0 <= k < |cover| && Contains(cover[k], r)
  }

  /** Every rectangle lies inside one of `cover`. */
  ghost predicate InsideOf(rects: seq<Rect>, cover: seq<Rect>) {
    forall k | 0 <= k < |rects| :: Inside(rects[k], cover)
  }

  /** `box` is the bounding box of the clips numbered in `members`: it holds them all, and each of
      its edges is an edge of one of them. */
  ghost predicate IsHull(clips: seq<Rect>, box: Rect, members: set<nat>) {
    && (forall m | m in members :: m < |clips| && Contains(box, clips[m]))
    && (exists m :: m in members && clips[m].x == box.x)
    && (exists m :: m in members && clips[m].y == box.y)
    && (exists m :: m in members && clips[m].Right() == box.Right())
    && (exists m :: m in members && clips[m].Bottom() == box.Bottom())
  }

  ghost predicate InSome(blocks: seq<set<nat>>, m: nat) {
    exists k :: 0 <= k < |blocks| && m in blocks[k]
  }

  /** `blocks` divides the clips, and `boxes` are the blocks' bounding boxes. */
  ghost predicate Partition(clips: seq<Rect>, blocks: seq<set<nat>>, boxes: seq<Rect>) {
    && |blocks| == |boxes|
    && (forall m: nat | m < |clips| :: InSome(blocks, m))
    && (forall k | 0 <= k < |blocks| :: IsHull(clips, boxes[k], blocks[k]))
    && (forall i, j | 0 <= i < j < |blocks| :: blocks[i] !! blocks[j])
  }

  /** The bounding boxes of the finest partition of the clips whose boxes are pairwise separated:
      any separated rectangles that cover the clips cover these boxes too. */
  ghost predicate IsCoalesced(s: Surface, clips: seq<Rect>, rects: seq<Rect>) {
    && AllClips(s, rects)
    && Separated(rects)
    && (exists blocks :: Partition(clips, blocks, rects))
    && (forall cover | Separated(cover) && InsideOf(clips, cover) :: InsideOf(rects, cover))
  }

  // ----- Merging two rectangles -----

  lemma {:induction false} UnionOfClips(s: Surface, a: Rect, b: Rect)
    requires IsClip(s, a) && IsClip(s, b)
    ensures IsClip(s, Union(a, b))
    ensures Union(a, b).x == Min(a.x, b.x) && Union(a, b).Right() == Max(a.Right(), b.Right())
    ensures Union(a, b).y == Min(a.y, b.y) && Union(a, b).Bottom() == Max(a.Bottom(), b.Bottom())
  {
  }

  /** The union of two bounding boxes is the bounding box of all their clips. */
  lemma {:induction false} UnionIsHull(s: Surface, clips: seq<Rect>, a: Rect, b: Rect, inA: set<nat>, inB: set<nat>)
    requires IsClip(s, a) && IsClip(s, b) && IsHull(clips, a, inA) && IsHull(clips, b, inB)
    ensures IsHull(clips, Union(a, b), inA + inB)
  {
    UnionOfClips(s, a, b);
    var u := Union(a, b);
    var left :| left in (if a.x <= b.x then inA else inB) && clips[left].x == u.x;
    var top :| top in (if a.y <= b.y then inA else inB) && clips[top].y == u.y;
    var right :| right in (if a.Right() < b.Right() then inB else inA) && clips[right].Right() == u.Right();
    var bottom :| bottom in (if a.Bottom() < b.Bottom() then inB else inA) && clips[bottom].Bottom() == u.Bottom();
    assert left in inA + inB && top in inA + inB && right in inA + inB && bottom in inA + inB;
  }

  predicate Holds(r: Rect, x: int, y: int) {
    r.x <= x < r.Right() && r.y <= y < r.Bottom()
  }

  /** Some pixel of one and some pixel of the other are at most two apart, across and down. */
  ghost predicate PixelsTwoApart(a: Rect, b: Rect) {
    exists x, y, u, v :: Holds(a, x, y) && Holds(b, u, v) && -2 <= x - u <= 2 && -2 <= y - v <= 2
  }

  /** A point of `[low, high)` closest to the interval `[other, otherHigh)`. */
  function Closest(low: int, high: int, other: int, otherHigh: int): (x: int)
    requires low < high && other < otherHigh
    ensures low <= x < high
  {
    if high <= other then high - 1 else if otherHigh <= low then low else Max(low, other)
  }

  /** Two rectangles are merged exactly when they come within two pixels of each other. */
  lemma {:induction false} NearIsTwoPixels(a: Rect, b: Rect)
    requires 0 < a.w && 0 < a.h && 0 < b.w && 0 < b.h
    ensures OverlapOrNearlyTouch(a, b) <==> PixelsTwoApart(a, b)
  {
    if OverlapOrNearlyTouch(a, b) {
      var x, u := Closest(a.x, a.Right(), b.x, b.Right()), Closest(b.x, b.Right(), a.x, a.Right());
      var y, v := Closest(a.y, a.Bottom(), b.y, b.Bottom()), Closest(b.y, b.Bottom(), a.y, a.Bottom());
      assert Holds(a, x, y) && Holds(b, u, v);
    }
  }

  /** Rectangles that hold near rectangles are near. */
  lemma {:induction false} NearGrows(a: Rect, b: Rect, outerA: Rect, outerB: Rect)
    requires OverlapOrNearlyTouch(a, b) && Contains(outerA, a) && Contains(outerB, b)
    ensures OverlapOrNearlyTouch(outerA, outerB) && OverlapOrNearlyTouch(outerB, outerA)
  {
  }

  /** Near rectangles lie in the same member of a separated cover. */
  lemma {:induction false} SameCover(cover: seq<Rect>, a: Rect, b: Rect, i: nat, j: nat)
    requires Separated(cover) && i < |cover| && j < |cover|
    requires OverlapOrNearlyTouch(a, b) && Contains(cover[i], a) && Contains(cover[j], b)
    ensures i == j
  {
    NearGrows(a, b, cover[i], cover[j]);
    assert forall k, m | 0 <= k < m < |cover| :: !OverlapOrNearlyTouch(cover[k], cover[m]);
  }

  // ----- The loop's step -----

  /** Element `i` takes in element `j`, and the last element moves into `j`'s place. */
  function MergeAt<T>(xs: seq<T>, i: nat, j: nat, merged: T): (r: seq<T>)
    requires i < j < |xs|
    ensures |r| == |xs| - 1
    ensures forall k | 0 <= k < |r| :: r[k] == if k == i then merged else if k == j then xs[|xs| - 1] else xs[k]
  {
    xs[i := merged][j := xs[|xs| - 1]][..|xs| - 1]
  }

  /** Where an element of `xs` is found after the merge. */
  function MovedTo<T>(xs: seq<T>, i: nat, j: nat, k: nat): (to: nat)
    requires i < j < |xs| && k < |xs|
    ensures to < |xs| - 1
  {
    if k == j then i else if k == |xs| - 1 then j else k
  }

  /** The rectangles after taking the near pair `i`, `j` together. */
  function MergePair(rects: seq<Rect>, i: nat, j: nat): (r: seq<Rect>)
    requires i < j < |rects|
    ensures |r| == |rects| - 1
  {
    MergeAt(rects, i, j, Union(rects[i], rects[j]))
  }

  lemma {:induction false} MergeKeepsClips(s: Surface, rects: seq<Rect>, i: nat, j: nat)
    requires AllClips(s, rects) && i < j < |rects|
    ensures AllClips(s, MergePair(rects, i, j))
  {
    UnionOfClips(s, rects[i], rects[j]);
  }

  lemma {:induction false} MergeKeepsMembers(blocks: seq<set<nat>>, i: nat, j: nat, m: nat)
    requires i < j < |blocks| && InSome(blocks, m)
    ensures InSome(MergeAt(blocks, i, j, blocks[i] + blocks[j]), m)
  {
    var k :| 0 <= k < |blocks| && m in blocks[k];
    assert m in MergeAt(blocks, i, j, blocks[i] + blocks[j])[MovedTo(blocks, i, j, k)];
  }

  lemma {:induction false} MergeKeepsDisjoint(blocks: seq<set<nat>>, i: nat, j: nat)
    requires i < j < |blocks| && forall k, m | 0 <= k < m < |blocks| :: blocks[k] !! blocks[m]
    ensures var r := MergeAt(blocks, i, j, blocks[i] + blocks[j]);
            forall k, m | 0 <= k < m < |r| :: r[k] !! r[m]
  {
    var r := MergeAt(blocks, i, j, blocks[i] + blocks[j]);
    forall k, m | 0 <= k < m < |r| ensures r[k] !! r[m] {
    }
  }

  lemma {:induction false} MergeKeepsHull(s: Surface, clips: seq<Rect>, blocks: seq<set<nat>>, rects: seq<Rect>,
                                          i: nat, j: nat, k: nat)
    requires AllClips(s, rects) && |blocks| == |rects| && i < j < |rects| && k < |rects| - 1
    requires forall q | 0 <= q < |blocks| :: IsHull(clips, rects[q], blocks[q])
    ensures IsHull(clips, MergePair(rects, i, j)[k], MergeAt(blocks, i, j, blocks[i] + blocks[j])[k])
  {
    UnionIsHull(s, clips, rects[i], rects[j], blocks[i], blocks[j]);
    var last := |rects| - 1;
    assert IsHull(clips, rects[last], blocks[last]) && IsHull(clips, rects[k], blocks[k]);
  }

  lemma {:induction false} MergeKeepsPartition(s: Surface, clips: seq<Rect>, blocks: seq<set<nat>>, rects: seq<Rect>,
                                               i: nat, j: nat)
    requires AllClips(s, rects) && Partition(clips, blocks, rects) && i < j < |rects|
    ensures Partition(clips, MergeAt(blocks, i, j, blocks[i] + blocks[j]), MergePair(rects, i, j))
  {
    var blocks1, rects1 := MergeAt(blocks, i, j, blocks[i] + blocks[j]), MergePair(rects, i, j);
    forall m: nat | m < |clips| ensures InSome(blocks1, m) {
      MergeKeepsMembers(blocks, i, j, m);
    }
    forall k | 0 <= k < |blocks1| ensures IsHull(clips, rects1[k], blocks1[k]) {
      MergeKeepsHull(s, clips, blocks, rects, i, j, k);
    }
    MergeKeepsDisjoint(blocks, i, j);
  }

  /** Merging two near rectangles stays inside every separated cover. */
  lemma {:induction false} MergeStaysInside(s: Surface, rects: seq<Rect>, i: nat, j: nat, cover: seq<Rect>)
    requires AllClips(s, rects) && i < j < |rects| && OverlapOrNearlyTouch(rects[i], rects[j])
    requires Separated(cover) && InsideOf(rects, cover)
    ensures InsideOf(MergePair(rects, i, j), cover)
  {
    var u := Union(rects[i], rects[j]);
    var merged := MergePair(rects, i, j);
    assert Inside(rects[i], cover) && Inside(rects[j], cover);
    var fi :| 0 <= fi < |cover| && Contains(cover[fi], rects[i]);
    var fj :| 0 <= fj < |cover| && Contains(cover[fj], rects[j]);
    SameCover(cover, rects[i], rects[j], fi, fj);
    UnionOfClips(s, rects[i], rects[j]);
    assert Contains(cover[fi], u);
    assert Inside(rects[|rects| - 1], cover);
    forall k | 0 <= k < |merged| ensures Inside(merged[k], cover) {
      assert Inside(rects[k], cover);
    }
  }

  // ----- The whole loop -----

  datatype NearPair = NoPair | Pair(i: nat, j: nat)

  /** The first near pair, in the order the two nested scans meet them, from `(i, j)` on. */
  function FirstNearFrom(rects: seq<Rect>, i: nat, j: nat): (p: NearPair)
    requires i <= |rects|
    ensures p.Pair? ==> p.i < p.j < |rects| && OverlapOrNearlyTouch(rects[p.i], rects[p.j])
    decreases |rects| - i, |rects| - j
  {
    if i == |rects| then NoPair
    else if j <= i then FirstNearFrom(rects, i, i + 1)
    else if |rects| <= j then FirstNearFrom(rects, i + 1, i + 2)
    else if OverlapOrNearlyTouch(rects[i], rects[j]) then Pair(i, j)
    else FirstNearFrom(rects, i, j + 1)
  }

  lemma {:induction false} NoNearPair(rects: seq<Rect>, i: nat, j: nat, a: nat, b: nat)
    requires i <= |rects| && FirstNearFrom(rects, i, j).NoPair?
    requires a < b < |rects| && (i < a || (i == a && j <= b))
    ensures !OverlapOrNearlyTouch(rects[a], rects[b])
    decreases |rects| - i, |rects| - j
  {
    if j <= i {
      NoNearPair(rects, i, i + 1, a, b);
    } else if |rects| <= j {
      NoNearPair(rects, i + 1, i + 2, a, b);
    } else if i != a || j != b {
      NoNearPair(rects, i, j + 1, a, b);
    }
  }

  /** The fixpoint: merge the first near pair until there is none. */
  function Coalesced(rects: seq<Rect>): seq<Rect>
    decreases |rects|
  {
    match FirstNearFrom(rects, 0, 1)
    case NoPair => rects
    case Pair(i, j) => Coalesced(MergePair(rects, i, j))
  }

  /** Rectangles the loop may hold after some merges of `clips`. */
  ghost predicate Merging(s: Surface, clips: seq<Rect>, rects: seq<Rect>) {
    && AllClips(s, rects)
    && (exists blocks :: Partition(clips, blocks, rects))
    && (forall cover | Separated(cover) && InsideOf(clips, cover) :: InsideOf(rects, cover))
  }

  lemma {:induction false} StartsMerging(s: Surface, clips: seq<Rect>)
    requires AllClips(s, clips)
    ensures Merging(s, clips, clips)
  {
    var blocks: seq<set<nat>> := seq(|clips|, k => {k});
    forall m: nat | m < |clips| ensures InSome(blocks, m) {
      assert m in blocks[m];
    }
    forall k | 0 <= k < |blocks| ensures IsHull(clips, clips[k], blocks[k]) {
      assert k in blocks[k];
    }
    assert Partition(clips, blocks, clips);
  }

  lemma {:induction false} KeepsMerging(s: Surface, clips: seq<Rect>, rects: seq<Rect>, i: nat, j: nat)
    requires Merging(s, clips, rects) && i < j < |rects| && OverlapOrNearlyTouch(rects[i], rects[j])
    ensures Merging(s, clips, MergePair(rects, i, j))
  {
    var rects1 := MergePair(rects, i, j);
    var blocks :| Partition(clips, blocks, rects);
    MergeKeepsPartition(s, clips, blocks, rects, i, j);
    MergeKeepsClips(s, rects, i, j);
    forall cover | Separated(cover) && InsideOf(clips, cover) ensures InsideOf(rects1, cover) {
      MergeStaysInside(s, rects, i, j, cover);
    }
  }

  lemma {:induction false} CoalescesFrom(s: Surface, clips: seq<Rect>, rects: seq<Rect>)
    requires Merging(s, clips, rects)
    ensures IsCoalesced(s, clips, Coalesced(rects))
    decreases |rects|
  {
    match FirstNearFrom(rects, 0, 1)
    case NoPair =>
      forall a, b | 0 <= a < b < |rects| ensures !OverlapOrNearlyTouch(rects[a], rects[b]) {
        NoNearPair(rects, 0, 1, a, b);
      }
      assert Separated(rects);
    case Pair(i, j) =>
      KeepsMerging(s, clips, rects, i, j);
      CoalescesFrom(s, clips, MergePair(rects, i, j));
  }

  /** What the loop leaves is the finest separated partition's boxes. */
  lemma {:induction false} CoalescedIsCoalesced(s: Surface, clips: seq<Rect>)
    requires AllClips(s, clips)
    ensures IsCoalesced(s, clips, Coalesced(clips))
  {
    StartsMerging(s, clips);
    CoalescesFrom(s, clips, clips);
  }

  // ----- Confluence -----

  lemma {:induction false} PartitionCovers(clips: seq<Rect>, blocks: seq<set<nat>>, rects: seq<Rect>)
    requires Partition(clips, blocks, rects)
    ensures InsideOf(clips, rects)
  {
    forall m | 0 <= m < |clips| ensures Inside(clips[m], rects) {
      assert InSome(blocks, m);
      var k :| 0 <= k < |blocks| && m in blocks[k];
      assert IsHull(clips, rects[k], blocks[k]);
    }
  }

  lemma {:induction false} CoalescedCovers(s: Surface, clips: seq<Rect>, rects: seq<Rect>)
    requires IsCoalesced(s, clips, rects)
    ensures InsideOf(clips, rects)
  {
    var blocks :| Partition(clips, blocks, rects);
    PartitionCovers(clips, blocks, rects);
  }

  lemma {:induction false} SameClipsInside(clips: seq<Rect>, others: seq<Rect>, cover: seq<Rect>)
    requires InsideOf(others, cover) && forall r :: r in clips ==> r in others
    ensures InsideOf(clips, cover)
  {
    forall k | 0 <= k < |clips| ensures Inside(clips[k], cover) {
      assert clips[k] in clips;
      var m :| 0 <= m < |others| && others[m] == clips[k];
      assert Inside(others[m], cover);
    }
  }

  lemma {:induction false} EachInsideTheOther(a: Rect, b: Rect)
    requires Contains(a, b) && Contains(b, a)
    ensures a == b
  {
    assert a.w == b.w && a.h == b.h;
  }

  lemma {:induction false} ContainsItself(s: Surface, r: Rect)
    requires IsClip(s, r)
    ensures Contains(r, r) && OverlapOrNearlyTouch(r, r)
  {
  }

  lemma {:induction false} ContainsChains(a: Rect, b: Rect, c: Rect)
    requires Contains(a, b) && Contains(b, c)
    ensures Contains(a, c)
  {
  }

  /** Two families of separated clips, each inside the other, have the same members. */
  lemma {:induction false} MutualCoverMember(s: Surface, rects: seq<Rect>, others: seq<Rect>, k: nat)
    requires AllClips(s, rects) && Separated(rects) && InsideOf(rects, others) && InsideOf(others, rects)
    requires k < |rects|
    ensures rects[k] in others
  {
    hide Contains, IsClip, OverlapOrNearlyTouch, Separated;
    assert Inside(rects[k], others);
    var o :| 0 <= o < |others| && Contains(others[o], rects[k]);
    assert Inside(others[o], rects);
    var q :| 0 <= q < |rects| && Contains(rects[q], others[o]);
    assert IsClip(s, rects[k]);
    ContainsItself(s, rects[k]);
    ContainsChains(rects[q], others[o], rects[k]);
    SameCover(rects, rects[k], rects[k], k, q);
    EachInsideTheOther(others[o], rects[k]);
  }

  /** Coalescing is confluent: two families that are the coalesced boxes of the same clips, in any
      order and with any repetitions, have the same members. */
  lemma {:induction false} Confluence(s: Surface, clips: seq<Rect>, others: seq<Rect>, rects: seq<Rect>,
                                      otherRects: seq<Rect>)
    requires IsCoalesced(s, clips, rects) && IsCoalesced(s, others, otherRects)
    requires forall r :: r in clips <==> r in others
    ensures forall r :: r in rects <==> r in otherRects
  {
    hide Contains, OverlapOrNearlyTouch, IsClip;
    CoalescedCovers(s, clips, rects);
    CoalescedCovers(s, others, otherRects);
    SameClipsInside(clips, others, otherRects);
    SameClipsInside(others, clips, rects);
    assert InsideOf(rects, otherRects) && InsideOf(otherRects, rects);
    forall r | r in rects ensures r in otherRects {
      var k :| 0 <= k < |rects| && rects[k] == r;
      MutualCoverMember(s, rects, otherRects, k);
    }
    forall r | r in otherRects ensures r in rects {
      var k :| 0 <= k < |otherRects| && otherRects[k] == r;
      MutualCoverMember(s, otherRects, rects, k);
    }
  }

  /** A clip is in the block of the separated box it lies in. */
  lemma {:induction false} BlockOfBox(s: Surface, clips: seq<Rect>, blocks: seq<set<nat>>, boxes: seq<Rect>, m: nat,
                                      q: nat)
    requires AllClips(s, clips) && Separated(boxes) && Partition(clips, blocks, boxes)
    requires m < |clips| && q < |boxes| && Contains(boxes[q], clips[m])
    ensures m in blocks[q]
  {
    assert InSome(blocks, m);
    var p :| 0 <= p < |blocks| && m in blocks[p];
    assert IsHull(clips, boxes[p], blocks[p]);
    assert IsClip(s, clips[m]);
    SameCover(boxes, clips[m], clips[m], p, q);
  }

  lemma {:induction false} BlockInside(s: Surface, clips: seq<Rect>, box: Rect, block: set<nat>,
                                       otherBlocks: seq<set<nat>>, otherBoxes: seq<Rect>, q: nat)
    requires AllClips(s, clips) && Separated(otherBoxes) && Partition(clips, otherBlocks, otherBoxes)
    requires IsHull(clips, box, block) && q < |otherBoxes| && Contains(otherBoxes[q], box)
    ensures block <= otherBlocks[q]
  {
    forall m | m in block ensures m in otherBlocks[q] {
      assert Contains(box, clips[m]);
      BlockOfBox(s, clips, otherBlocks, otherBoxes, m, q);
    }
  }

  lemma {:induction false} BoxAround(s: Surface, clips: seq<Rect>, rects: seq<Rect>, otherBoxes: seq<Rect>,
                                     otherBlocks: seq<set<nat>>, k: nat) returns (q: nat)
    requires IsCoalesced(s, clips, rects) && k < |rects|
    requires Separated(otherBoxes) && Partition(clips, otherBlocks, otherBoxes)
    ensures q < |otherBoxes| && Contains(otherBoxes[q], rects[k])
  {
    PartitionCovers(clips, otherBlocks, otherBoxes);
    assert Inside(rects[k], otherBoxes);
    q :| 0 <= q < |otherBoxes| && Contains(otherBoxes[q], rects[k]);
  }

  /** No partition with separated boxes is finer: each coalesced block lies within one of its blocks. */
  lemma {:induction false} CoalescedIsFinest(s: Surface, clips: seq<Rect>, rects: seq<Rect>, blocks: seq<set<nat>>,
                                             otherBoxes: seq<Rect>, otherBlocks: seq<set<nat>>, k: nat)
    requires AllClips(s, clips) && IsCoalesced(s, clips, rects) && Partition(clips, blocks, rects) && k < |rects|
    requires Separated(otherBoxes) && Partition(clips, otherBlocks, otherBoxes)
    ensures exists q :: 0 <= q < |otherBlocks| && blocks[k] <= otherBlocks[q]
  {
    var q := BoxAround(s, clips, rects, otherBoxes, otherBlocks, k);
    BlockInside(s, clips, rects[k], blocks[k], otherBlocks, otherBoxes, q);
  }

  // ----- Order -----

  predicate RectNotAfter(a: Rect, b: Rect) {
    if a.y != b.y then a.y < b.y
    else if a.x != b.x then a.x < b.x
    else if a.h != b.h then a.h < b.h
    else a.w <= b.w
  }

  lemma {:induction false} RectOrderIsTotal()
    ensures TotalOrder(RectNotAfter)
  {
  }

  lemma {:induction false} NoRepetition(s: Surface, rects: seq<Rect>)
    requires Separated(rects) && AllClips(s, rects)
    ensures forall i, j | 0 <= i < j < |rects| :: rects[i] != rects[j]
  {
    forall i, j | 0 <= i < j < |rects| ensures rects[i] != rects[j] {
      assert IsClip(s, rects[i]) && !OverlapOrNearlyTouch(rects[i], rects[j]);
    }
  }

  /** The merged rectangles as the analysis reports them. */
  function Merged(clips: seq<Rect>): seq<Rect> {
    SortBy(Coalesced(clips), RectNotAfter)
  }

  /** The reported rectangles do not depend on the order or the repetition of the input clips. */
  lemma {:induction false} OrderDoesNotMatter(s: Surface, clips: seq<Rect>, others: seq<Rect>)
    requires AllClips(s, clips) && AllClips(s, others) && forall r :: r in clips <==> r in others
    ensures Merged(clips) == Merged(others)
  {
    var rects, otherRects := Coalesced(clips), Coalesced(others);
    CoalescedIsCoalesced(s, clips);
    CoalescedIsCoalesced(s, others);
    Confluence(s, clips, others, rects, otherRects);
    NoRepetition(s, rects);
    NoRepetition(s, otherRects);
    DistinctSameElements(rects, otherRects);
    RectOrderIsTotal();
    SortBySorts(rects, RectNotAfter);
    SortBySorts(otherRects, RectNotAfter);
    ElementsDecideOrder(Merged(clips), Merged(others), RectNotAfter);
  }

  lemma {:induction false} InPermutation<T>(xs: seq<T>, ys: seq<T>, k: nat)
    requires multiset(xs) == multiset(ys) && k < |xs|
    ensures exists q :: 0 <= q < |ys| && ys[q] == xs[k]
  {
    assert xs[k] in multiset(ys);
  }

  /** Every input clip lies inside a reported rectangle; the report is the coalesced rectangles, sorted. */
  lemma {:induction false} MergedCoversClips(s: Surface, clips: seq<Rect>)
    requires AllClips(s, clips)
    ensures InsideOf(clips, Merged(clips))
    ensures multiset(Merged(clips)) == multiset(Coalesced(clips))
    ensures Sorted(Merged(clips), RectNotAfter)
  {
    var rects, merged := Coalesced(clips), Merged(clips);
    CoalescedIsCoalesced(s, clips);
    CoalescedCovers(s, clips, rects);
    RectOrderIsTotal();
    SortBySorts(rects, RectNotAfter);
    forall m | 0 <= m < |clips| ensures Inside(clips[m], merged) {
      assert Inside(clips[m], rects);
      var k :| 0 <= k < |rects| && Contains(rects[k], clips[m]);
      InPermutation(rects, merged, k);
    }
  }

  // ----- Area -----

  /** The pixels of `w` columns and `h` rows from `(x, y)`. */
  ghost function Pixels(x: int, y: int, w: int, h: int): (p: set<(int, int)>)
    ensures forall px, py :: (px, py) in p <==> x <= px < x + w && y <= py < y + h
  {
    set px: int, py: int | x <= px < x + w && y <= py < y + h :: (px, py)
  }

  ghost function PixelsOf(r: Rect): set<(int, int)> {
    Pixels(r.x, r.y, r.w, r.h)
  }

  lemma {:induction false} RowCount(x: int, y: int, w: nat)
    ensures |Pixels(x, y, w, 1)| == w
  {
    if w > 0 {
      RowCount(x, y, w - 1);
      assert Pixels(x, y, w, 1) == Pixels(x, y, w - 1, 1) + {(x + w - 1, y)};
    } else {
      assert Pixels(x, y, 0, 1) == {};
    }
  }

  lemma {:induction false} RowSplits(x: int, y: int, w: nat, h: nat)
    requires h > 0
    ensures |Pixels(x, y, w, h)| == |Pixels(x, y, w, h - 1)| + |Pixels(x, y + h - 1, w, 1)|
  {
    assert Pixels(x, y, w, h) == Pixels(x, y, w, h - 1) + Pixels(x, y + h - 1, w, 1);
    assert Pixels(x, y, w, h - 1) !! Pixels(x, y + h - 1, w, 1);
  }

  lemma {:induction false} PixelCount(x: int, y: int, w: nat, h: nat)
    ensures |Pixels(x, y, w, h)| == w * h
  {
    if h > 0 {
      PixelCount(x, y, w, h - 1);
      RowCount(x, y + h - 1, w);
      RowSplits(x, y, w, h);
      assert w * (h - 1) + w == w * h;
    } else {
      assert Pixels(x, y, w, 0) == {};
    }
  }

  function TotalArea(rects: seq<Rect>): int {
    if rects == [] then 0 else rects[0].Area() + TotalArea(rects[1..])
  }

  ghost function AllPixels(rects: seq<Rect>): set<(int, int)> {
    if rects == [] then {} else PixelsOf(rects[0]) + AllPixels(rects[1..])
  }

  lemma {:induction false} InAllPixels(rects: seq<Rect>, px: int, py: int)
    requires (px, py) in AllPixels(rects)
    ensures exists k :: 0 <= k < |rects| && (px, py) in PixelsOf(rects[k])
  {
    if (px, py) in PixelsOf(rects[0]) {
    } else {
      InAllPixels(rects[1..], px, py);
      var k :| 0 <= k < |rects| - 1 && (px, py) in PixelsOf(rects[1..][k]);
      assert (px, py) in PixelsOf(rects[k + 1]);
    }
  }

  lemma {:induction false} FirstIsApart(s: Surface, rects: seq<Rect>)
    requires AllClips(s, rects) && Separated(rects) && rects != []
    ensures PixelsOf(rects[0]) !! AllPixels(rects[1..])
  {
    forall p | p in AllPixels(rects[1..]) ensures p !in PixelsOf(rects[0]) {
      var (px, py) := p;
      InAllPixels(rects[1..], px, py);
      var k :| 0 <= k < |rects| - 1 && (px, py) in PixelsOf(rects[1..][k]);
      assert !OverlapOrNearlyTouch(rects[0], rects[k + 1]);
    }
  }

  /** The areas of separated clips add up to the pixels they cover. */
  lemma {:induction false} SeparatedArea(s: Surface, rects: seq<Rect>)
    requires AllClips(s, rects) && Separated(rects)
    ensures |AllPixels(rects)| == TotalArea(rects)
  {
    if rects != [] {
      SeparatedArea(s, rects[1..]);
      assert IsClip(s, rects[0]);
      PixelCount(rects[0].x, rects[0].y, rects[0].w, rects[0].h);
      FirstIsApart(s, rects);
    }
  }

  lemma {:induction false} SubsetSize<T>(a: set<T>, b: set<T>)
    requires a <= b
    ensures |a| <= |b|
  {
    assert b == a + (b - a);
  }

  /** Separated clips cover no more than the surface. */
  lemma {:induction false} AreaWithinSurface(s: Surface, rects: seq<Rect>)
    requires 0 <= s.width && 0 <= s.height && AllClips(s, rects) && Separated(rects)
    ensures 0 <= TotalArea(rects) <= s.width * s.height
  {
    SeparatedArea(s, rects);
    PixelCount(0, 0, s.width, s.height);
    var surface := Pixels(0, 0, s.width, s.height);
    forall px, py | (px, py) in AllPixels(rects) ensures (px, py) in surface {
      InAllPixels(rects, px, py);
      var k :| 0 <= k < |rects| && (px, py) in PixelsOf(rects[k]);
      assert IsClip(s, rects[k]);
    }
    forall p | p in AllPixels(rects) ensures p in surface {
      var (px, py) := p;
      assert (px, py) in AllPixels(rects);
    }
    SubsetSize(AllPixels(rects), surface);
  }

  lemma {:induction false} InsertKeepsArea(r: Rect, rects: seq<Rect>)
    ensures TotalArea(Insert(r, rects, RectNotAfter)) == r.Area() + TotalArea(rects)
  {
    if rects == [] || RectNotAfter(r, rects[0]) {
      assert ([r] + rects)[1..] == rects;
    } else {
      var rest := Insert(r, rects[1..], RectNotAfter);
      InsertKeepsArea(r, rects[1..]);
      assert ([rects[0]] + rest)[1..] == rest;
    }
  }

  lemma {:induction false} SortKeepsArea(rects: seq<Rect>)
    ensures TotalArea(SortBy(rects, RectNotAfter)) == TotalArea(rects)
  {
    if rects != [] {
      SortKeepsArea(rects[1..]);
      InsertKeepsArea(rects[0], SortBy(rects[1..], RectNotAfter));
    }
  }

  /** The summed area of the reported rectangles never exceeds the surface. */
  lemma {:induction false} MergedAreaWithinSurface(s: Surface, clips: seq<Rect>)
    requires 0 <= s.width && 0 <= s.height && AllClips(s, clips)
    ensures 0 <= TotalArea(Merged(clips)) <= s.width * s.height
  {
    CoalescedIsCoalesced(s, clips);
    AreaWithinSurface(s, Coalesced(clips));
    SortKeepsArea(Coalesced(clips));
  }

  lemma {:induction false} CountedTwice<T>(xs: seq<T>, i: nat, j: nat)
    requires i < j < |xs| && xs[i] == xs[j]
    ensures multiset(xs)[xs[i]] >= 2
  {
    assert xs == xs[..j] + [xs[j]] + xs[j + 1..];
    assert xs[..j][i] in multiset(xs[..j]);
  }

  /** The report is as separated as what was coalesced. */
  lemma {:induction false} ReportIsSeparated(s: Surface, clips: seq<Rect>)
    requires AllClips(s, clips)
    ensures AllClips(s, Merged(clips)) && Separated(Merged(clips))
  {
    var rects, report := Coalesced(clips), Merged(clips);
    CoalescedIsCoalesced(s, clips);
    NoRepetition(s, rects);
    RectOrderIsTotal();
    SortBySorts(rects, RectNotAfter);
    hide OverlapOrNearlyTouch, IsCoalesced, Coalesced, RectNotAfter;
    forall i | 0 <= i < |report| ensures IsClip(s, report[i]) {
      InPermutation(report, rects, i);
    }
    forall i, j | 0 <= i < j < |report| ensures !OverlapOrNearlyTouch(report[i], report[j]) {
      InPermutation(report, rects, i);
      InPermutation(report, rects, j);
      var a: nat, b: nat :| a < |rects| && b < |rects| && rects[a] == report[i] && rects[b] == report[j];
      if a == b {
        CountedTwice(report, i, j);
        CountedOnce(rects, a);
      }
      NearIsMutual(report[i], report[j]);
    }
  }

  lemma {:induction false} CountedOnce<T>(xs: seq<T>, k: nat)
    requires k < |xs| && forall i, j | 0 <= i < j < |xs| :: xs[i] != xs[j]
    ensures multiset(xs)[xs[k]] == 1
  {
    assert xs == xs[..k] + [xs[k]] + xs[k + 1..];
    assert xs[k] !in xs[..k] && xs[k] !in xs[k + 1..];
  }

  lemma {:induction false} NearIsMutual(a: Rect, b: Rect)
    ensures OverlapOrNearlyTouch(a, b) <==> OverlapOrNearlyTouch(b, a)
  {
  }

  /** The report reads across and down: of two rectangles the later starts lower, or at the same height and more than
      a pixel to the right of where the earlier ends. */
  lemma {:induction false} ReportReadsAcross(s: Surface, clips: seq<Rect>, i: nat, j: nat)
    requires AllClips(s, clips) && i < j < |Merged(clips)|
    ensures var a, b := Merged(clips)[i], Merged(clips)[j];
            a.y < b.y || (a.y == b.y && a.Right() + 1 < b.x)
  {
    hide Merged;
    ReportIsSeparated(s, clips);
    MergedIsSorted(clips);
    assert IsClip(s, Merged(clips)[i]) && IsClip(s, Merged(clips)[j]);
    assert !OverlapOrNearlyTouch(Merged(clips)[i], Merged(clips)[j]);
  }

  lemma {:induction false} MergedIsSorted(clips: seq<Rect>)
    ensures Sorted(Merged(clips), RectNotAfter)
  {
    RectOrderIsTotal();
    SortBySorts(Coalesced(clips), RectNotAfter);
  }

  /** The areas of the report add up to the pixels it covers. */
  lemma {:induction false} ReportCountsPixels(s: Surface, clips: seq<Rect>)
    requires AllClips(s, clips)
    ensures TotalArea(Merged(clips)) == |AllPixels(Merged(clips))|
  {
    hide Merged, TotalArea, AllPixels, Separated, AllClips;
    ReportIsSeparated(s, clips);
    SeparatedArea(s, Merged(clips));
  }

  // ----- The analysis -----

  datatype Analysis = Analysis(clippedRectCount: nat, mergedClipRects: seq<Rect>, coverage: real)

  /** The two nested scans of one round. */
  method FindNearPair(rects: array<Rect>, count: nat) returns (pair: NearPair)
    requires count <= rects.Length
    ensures pair == FirstNearFrom(rects[..count], 0, 1)
  {
    ghost var held := rects[..count];
    var i := 0;
    while i < count
      invariant i <= count
      invariant FirstNearFrom(held, 0, 1) == FirstNearFrom(held, i, i + 1)
    {
      var j := i + 1;
      while j < count
        invariant i < j <= count
        invariant FirstNearFrom(held, 0, 1) == FirstNearFrom(held, i, j)
      {
        if OverlapOrNearlyTouch(rects[i], rects[j]) {
          return Pair(i, j);
        }
        j := j + 1;
      }
      i := i + 1;
    }
    pair := NoPair;
  }

  /** The merge loop: `rects` holds the vector, `count` its size. */
  method Coalesce(rects: array<Rect>) returns (count: nat)
    modifies rects
    ensures count <= rects.Length
    ensures rects[..count] == Coalesced(old(rects[..]))
  {
    hide OverlapOrNearlyTouch, Union;
    count := rects.Length;
    assert rects[..count] == rects[..];
    var mergedAny := true;
    while mergedAny
      invariant count <= rects.Length
      invariant Coalesced(rects[..count]) == Coalesced(old(rects[..]))
      invariant !mergedAny ==> FirstNearFrom(rects[..count], 0, 1).NoPair?
      decreases count, mergedAny
    {
      mergedAny := false;
      var pair := FindNearPair(rects, count);
      match pair
      case NoPair =>
      case Pair(i, j) =>
        ghost var held := rects[..count];
        rects[i] := Union(rects[i], rects[j]);
        if j + 1 < count {
          rects[j] := rects[count - 1];
        }
        count := count - 1;
        assert rects[..count] == MergePair(held, i, j);
        mergedAny := true;
    }
  }

  /** The analysis of clips already clamped to the surface.  Its `min` with the surface area never
      takes effect. */
  function SceneArea(s: Surface): (area: int)
    ensures 0 < s.width && 0 < s.height ==> 0 < area
  {
    s.width * s.height
  }

  method AnalyzeDirtyRegions(s: Surface, clips: seq<Rect>) returns (analysis: Analysis)
    requires AllClips(s, clips)
    ensures s.width <= 0 || s.height <= 0 ==> analysis == Analysis(0, [], 0.0)
    ensures 0 < s.width && 0 < s.height ==>
              analysis == Analysis(|clips|, Merged(clips),
                                   TotalArea(Merged(clips)) as real / SceneArea(s) as real)
  {
    if s.width <= 0 || s.height <= 0 {
      return Analysis(0, [], 0.0);
    }
    if clips == [] {
      return Analysis(0, [], 0.0);
    }
    var held := new Rect[|clips|](k requires 0 <= k < |clips| => clips[k]);
    assert held[..] == clips;
    var count := Coalesce(held);
    var merged := SortBy(held[..count], RectNotAfter);
    var sceneArea := SceneArea(s);
    var mergedArea := SumAreas(merged);
    MergedAreaWithinSurface(s, clips);
    mergedArea := Min(mergedArea, sceneArea);
    analysis := Analysis(|clips|, merged, mergedArea as real / sceneArea as real);
  }

  method SumAreas(rects: seq<Rect>) returns (area: int)
    ensures area == TotalArea(rects)
  {
    area := 0;
    var k := 0;
    while k < |rects|
      invariant k <= |rects| && area + TotalArea(rects[k..]) == TotalArea(rects)
    {
      area := area + rects[k].w * rects[k].h;
      assert rects[k..][1..] == rects[k + 1..];
      k := k + 1;
    }
  }
}
