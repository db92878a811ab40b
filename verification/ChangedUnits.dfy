/** Which units (tokens or codepoints) of two lines are changed: equal ends are kept, and between them
    the units a common subsequence pairs. */
module ChangedUnits {
  import opened Basics
  import opened CommonSubsequence

  // ----- Equal ends -----

  /** How many leading units are equal, given that the first `k` are. */
  function PrefixFrom<T(==)>(a: seq<T>, b: seq<T>, k: nat): (p: nat)
    requires k <= |a| && k <= |b|
    ensures k <= p <= |a| && p <= |b|
    ensures p < |a| && p < |b| ==> a[p] != b[p]
    ensures forall i | k <= i < p :: a[i] == b[i]
    decreases |a| - k
  {
    if k < |a| && k < |b| && a[k] == b[k] then PrefixFrom(a, b, k + 1) else k
  }

  /** How many trailing units past the prefix are equal, given that the last `s` are. */
  function SuffixFrom<T(==)>(a: seq<T>, b: seq<T>, prefix: nat, s: nat): (r: nat)
    requires prefix + s <= |a| && prefix + s <= |b|
    ensures s <= r && prefix + r <= |a| && prefix + r <= |b|
    decreases |a| - s
  {
    if prefix + s < |a| && prefix + s < |b| && a[|a| - 1 - s] == b[|b| - 1 - s]
    then SuffixFrom(a, b, prefix, s + 1) else s
  }

  function Prefix<T(==)>(a: seq<T>, b: seq<T>): (p: nat)
    ensures p <= |a| && p <= |b|
  {
    PrefixFrom(a, b, 0)
  }

  function Suffix<T(==)>(a: seq<T>, b: seq<T>): (s: nat)
    ensures Prefix(a, b) + s <= |a| && Prefix(a, b) + s <= |b|
  {
    SuffixFrom(a, b, Prefix(a, b), 0)
  }

  lemma {:induction false} SuffixIsEqual<T>(a: seq<T>, b: seq<T>, prefix: nat, s: nat)
    requires prefix + s <= |a| && prefix + s <= |b|
    ensures var r := SuffixFrom(a, b, prefix, s); a[|a| - r..|a| - s] == b[|b| - r..|b| - s]
    decreases |a| - s
  {
    if prefix + s < |a| && prefix + s < |b| && a[|a| - 1 - s] == b[|b| - 1 - s] {
      var r := SuffixFrom(a, b, prefix, s + 1);
      SuffixIsEqual(a, b, prefix, s + 1);
      assert a[|a| - r..|a| - s] == a[|a| - r..|a| - s - 1] + [a[|a| - 1 - s]];
      assert b[|b| - r..|b| - s] == b[|b| - r..|b| - s - 1] + [b[|b| - 1 - s]];
    }
  }

  lemma {:induction false} EndsAreEqual<T>(a: seq<T>, b: seq<T>)
    ensures a[..Prefix(a, b)] == b[..Prefix(a, b)]
    ensures a[|a| - Suffix(a, b)..] == b[|b| - Suffix(a, b)..]
  {
    var s := Suffix(a, b);
    SuffixIsEqual(a, b, Prefix(a, b), 0);
    assert a[|a| - s..|a| - 0] == a[|a| - s..] && b[|b| - s..|b| - 0] == b[|b| - s..];
  }

  lemma {:induction false} SuffixStops<T>(a: seq<T>, b: seq<T>, prefix: nat, s: nat)
    requires prefix + s <= |a| && prefix + s <= |b|
    ensures var r := SuffixFrom(a, b, prefix, s);
            prefix + r < |a| && prefix + r < |b| ==> a[|a| - 1 - r] != b[|b| - 1 - r]
    decreases |a| - s
  {
    if prefix + s < |a| && prefix + s < |b| && a[|a| - 1 - s] == b[|b| - 1 - s] {
      SuffixStops(a, b, prefix, s + 1);
    }
  }

  /** The equal ends are the longest: where both sides have units between them, the first ones differ and so do
      the last. */
  lemma {:induction false} EndsAreLongest<T>(a: seq<T>, b: seq<T>)
    ensures var p, s := Prefix(a, b), Suffix(a, b);
            && a[..p] == b[..p] && a[|a| - s..] == b[|b| - s..]
            && (p + s < |a| && p + s < |b| ==> a[p] != b[p] && a[|a| - 1 - s] != b[|b| - 1 - s])
  {
    EndsAreEqual(a, b);
    SuffixStops(a, b, Prefix(a, b), 0);
  }

  /** What is left of `x` between ends of these lengths. */
  function Between<T>(x: seq<T>, prefix: nat, suffix: nat): (m: seq<T>)
    requires prefix + suffix <= |x|
    ensures |m| == |x| - suffix - prefix
  {
    x[prefix..|x| - suffix]
  }

  // ----- Flags -----

  /** The flags of the left units `k..n`: those that `pairs` names are kept. */
  function LeftFlags(pairs: seq<Pair>, k: nat, n: nat): (r: seq<bool>)
    requires k <= n
    ensures |r| == n - k
    decreases n - k
  {
    if k == n then []
    else if pairs != [] && pairs[0].0 == k then [false] + LeftFlags(pairs[1..], k + 1, n)
    else [true] + LeftFlags(pairs, k + 1, n)
  }

  function RightFlags(pairs: seq<Pair>, k: nat, n: nat): (r: seq<bool>)
    requires k <= n
    ensures |r| == n - k
    decreases n - k
  {
    if k == n then []
    else if pairs != [] && pairs[0].1 == k then [false] + RightFlags(pairs[1..], k + 1, n)
    else [true] + RightFlags(pairs, k + 1, n)
  }

  /** Flags for a whole side: the ends are kept. */
  function Framed(prefix: nat, middle: seq<bool>, suffix: nat): (r: seq<bool>)
    ensures |r| == prefix + |middle| + suffix
  {
    Repeat(false, prefix) + middle + Repeat(false, suffix)
  }

  // ----- What is kept -----

  /** The units not flagged. */
  ghost function Kept<T>(units: seq<T>, changed: seq<bool>): seq<T>
    requires |units| == |changed|
  {
    if units == [] then [] else (if changed[0] then [] else [units[0]]) + Kept(units[1..], changed[1..])
  }

  lemma {:induction false} KeptConcat<T>(a: seq<T>, b: seq<T>, f: seq<bool>, g: seq<bool>)
    requires |a| == |f| && |b| == |g|
    ensures Kept(a + b, f + g) == Kept(a, f) + Kept(b, g)
  {
    if a == [] {
      assert a + b == b && f + g == g;
    } else {
      KeptConcat(a[1..], b, f[1..], g);
      assert (a + b)[1..] == a[1..] + b && (f + g)[1..] == f[1..] + g;
      var first := if f[0] then [] else [a[0]];
      assert Kept(a + b, f + g) == first + Kept((a + b)[1..], (f + g)[1..]);
      assert Kept(a, f) == first + Kept(a[1..], f[1..]);
    }
  }

  lemma {:induction false} KeptAll<T>(units: seq<T>, changed: seq<bool>)
    requires |units| == |changed| && forall k | 0 <= k < |changed| :: !changed[k]
    ensures Kept(units, changed) == units
  {
    if units != [] {
      KeptAll(units[1..], changed[1..]);
    }
  }

  lemma {:induction false} KeptFramed<T>(units: seq<T>, prefix: nat, middle: seq<bool>, suffix: nat)
    requires |units| == prefix + |middle| + suffix
    ensures Kept(units, Framed(prefix, middle, suffix))
         == units[..prefix] + Kept(Between(units, prefix, suffix), middle) + units[|units| - suffix..]
  {
    var a, m, z := units[..prefix], Between(units, prefix, suffix), units[|units| - suffix..];
    assert units == a + m + z;
    KeptConcat(a + m, z, Repeat(false, prefix) + middle, Repeat(false, suffix));
    KeptConcat(a, m, Repeat(false, prefix), middle);
    KeptAll(a, Repeat(false, prefix));
    KeptAll(z, Repeat(false, suffix));
  }

  /** The paired elements of the left side, and of the right. */
  ghost function LeftPaired<T>(a: seq<T>, pairs: seq<Pair>): seq<T> {
    if pairs == [] then []
    else (if pairs[0].0 < |a| then [a[pairs[0].0]] else []) + LeftPaired(a, pairs[1..])
  }

  ghost function RightPaired<T>(b: seq<T>, pairs: seq<Pair>): seq<T> {
    if pairs == [] then []
    else (if pairs[0].1 < |b| then [b[pairs[0].1]] else []) + RightPaired(b, pairs[1..])
  }

  lemma {:induction false} PairedSame<T>(a: seq<T>, b: seq<T>, pairs: seq<Pair>, i: nat, j: nat)
    requires Pairing(a, b, pairs, i, j)
    ensures LeftPaired(a, pairs) == RightPaired(b, pairs)
  {
    if pairs != [] {
      PairedSame(a, b, pairs[1..], pairs[0].0 + 1, pairs[0].1 + 1);
    }
  }

  lemma {:induction false} LeftKept<T>(a: seq<T>, b: seq<T>, pairs: seq<Pair>, i: nat, j: nat, k: nat)
    requires Pairing(a, b, pairs, i, j) && k <= i && k <= |a|
    ensures Kept(a[k..], LeftFlags(pairs, k, |a|)) == LeftPaired(a, pairs)
    decreases |a| - k
  {
    if k < |a| {
      assert a[k..][1..] == a[k + 1..];
      if pairs != [] && pairs[0].0 == k {
        LeftKept(a, b, pairs[1..], k + 1, pairs[0].1 + 1, k + 1);
      } else if pairs != [] {
        PairingFromFirst(a, b, pairs, i, j);
        LeftKept(a, b, pairs, pairs[0].0, pairs[0].1, k + 1);
      } else {
        LeftKept(a, b, pairs, k + 1, j, k + 1);
      }
    } else {
      assert pairs == [];
    }
  }

  lemma {:induction false} RightKept<T>(a: seq<T>, b: seq<T>, pairs: seq<Pair>, i: nat, j: nat, k: nat)
    requires Pairing(a, b, pairs, i, j) && k <= j && k <= |b|
    ensures Kept(b[k..], RightFlags(pairs, k, |b|)) == RightPaired(b, pairs)
    decreases |b| - k
  {
    if k < |b| {
      assert b[k..][1..] == b[k + 1..];
      if pairs != [] && pairs[0].1 == k {
        RightKept(a, b, pairs[1..], pairs[0].0 + 1, k + 1, k + 1);
      } else if pairs != [] {
        PairingFromFirst(a, b, pairs, i, j);
        RightKept(a, b, pairs, pairs[0].0, pairs[0].1, k + 1);
      } else {
        RightKept(a, b, pairs, i, k + 1, k + 1);
      }
    } else {
      assert pairs == [];
    }
  }

  lemma {:induction false} PairingFromFirst<T>(a: seq<T>, b: seq<T>, pairs: seq<Pair>, i: nat, j: nat)
    requires Pairing(a, b, pairs, i, j) && pairs != []
    ensures Pairing(a, b, pairs, pairs[0].0, pairs[0].1)
  {
  }

  /** The whole flagging: `pairs` pairs units of the two middles. */
  ghost predicate MiddlePairing<T>(a: seq<T>, b: seq<T>, pairs: seq<Pair>) {
    var p, s := Prefix(a, b), Suffix(a, b);
    Pairing(Between(a, p, s), Between(b, p, s), pairs, 0, 0)
  }

  function LeftChanged<T(==)>(a: seq<T>, b: seq<T>, pairs: seq<Pair>): (r: seq<bool>)
    ensures |r| == |a|
  {
    var p, s := Prefix(a, b), Suffix(a, b);
    Framed(p, LeftFlags(pairs, 0, |a| - p - s), s)
  }

  function RightChanged<T(==)>(a: seq<T>, b: seq<T>, pairs: seq<Pair>): (r: seq<bool>)
    ensures |r| == |b|
  {
    var p, s := Prefix(a, b), Suffix(a, b);
    Framed(p, RightFlags(pairs, 0, |b| - p - s), s)
  }

  /** Both sides keep the same units. */
  lemma {:induction false} SidesKeepTheSame<T>(a: seq<T>, b: seq<T>, pairs: seq<Pair>)
    requires MiddlePairing(a, b, pairs)
    ensures Kept(a, LeftChanged(a, b, pairs)) == Kept(b, RightChanged(a, b, pairs))
  {
    var p, s := Prefix(a, b), Suffix(a, b);
    EndsAreEqual(a, b);
    KeptFramed(a, p, LeftFlags(pairs, 0, |a| - p - s), s);
    KeptFramed(b, p, RightFlags(pairs, 0, |b| - p - s), s);
    MiddlesKeepTheSame(Between(a, p, s), Between(b, p, s), pairs);
  }

  lemma {:induction false} MiddlesKeepTheSame<T>(a: seq<T>, b: seq<T>, pairs: seq<Pair>)
    requires Pairing(a, b, pairs, 0, 0)
    ensures Kept(a, LeftFlags(pairs, 0, |a|)) == Kept(b, RightFlags(pairs, 0, |b|))
  {
    LeftKept(a, b, pairs, 0, 0, 0);
    RightKept(a, b, pairs, 0, 0, 0);
    assert a[0..] == a && b[0..] == b;
    PairedSame(a, b, pairs, 0, 0);
  }

  // ----- Something changed -----

  lemma {:induction false} AllKeptIsIdentity<T>(a: seq<T>, b: seq<T>, pairs: seq<Pair>, k: nat)
    requires Pairing(a, b, pairs, k, k) && k <= |a| && k <= |b|
    requires forall f | f in LeftFlags(pairs, k, |a|) :: !f
    requires forall f | f in RightFlags(pairs, k, |b|) :: !f
    ensures k < |a| && k < |b| ==> a[k] == b[k]
  {
    if k < |a| && k < |b| {
      assert LeftFlags(pairs, k, |a|)[0] in LeftFlags(pairs, k, |a|);
      assert RightFlags(pairs, k, |b|)[0] in RightFlags(pairs, k, |b|);
    }
  }

  /** When both middles have units, at least one unit is flagged: their first units differ. */
  lemma {:induction false} SomethingChanged<T>(a: seq<T>, b: seq<T>, pairs: seq<Pair>)
    requires MiddlePairing(a, b, pairs)
    requires Prefix(a, b) + Suffix(a, b) < |a| && Prefix(a, b) + Suffix(a, b) < |b|
    ensures true in LeftChanged(a, b, pairs) || true in RightChanged(a, b, pairs)
  {
    var p, s := Prefix(a, b), Suffix(a, b);
    var am, bm := Between(a, p, s), Between(b, p, s);
    assert a[p] != b[p];
    var left, right := LeftFlags(pairs, 0, |am|), RightFlags(pairs, 0, |bm|);
    assert am[0] == a[p] && bm[0] == b[p];
    if !(true in left) && !(true in right) {
      AllKeptIsIdentity(am, bm, pairs, 0);
    }
    FramedHolds(p, left, s);
    FramedHolds(p, right, s);
  }

  lemma {:induction false} FramedHolds(prefix: nat, middle: seq<bool>, suffix: nat)
    ensures true in middle ==> true in Framed(prefix, middle, suffix)
  {
    if true in middle {
      var k :| 0 <= k < |middle| && middle[k];
      assert Framed(prefix, middle, suffix)[prefix + k];
    }
  }

  // ----- Equal ends lose nothing -----

  lemma {:induction false} BestOfRest<T>(a: seq<T>, b: seq<T>, w: seq<nat>, i: nat, j: nat, x: nat, y: nat)
    requires |w| == |a| && i + x <= |a| && j + y <= |b|
    ensures Best(a, b, w, i + x, j + y) == Best(a[i..], b[j..], w[i..], x, y)
    decreases |a| - i - x + |b| - j - y
  {
    var c, d, v := a[i..], b[j..], w[i..];
    BestStep(a, b, w, i + x, j + y);
    BestStep(c, d, v, x, y);
    hide Best;
    if i + x < |a| && j + y < |b| {
      assert c[x] == a[i + x] && d[y] == b[j + y] && v[x] == w[i + x];
      BestOfRest(a, b, w, i, j, x + 1, y);
      BestOfRest(a, b, w, i, j, x, y + 1);
      BestOfRest(a, b, w, i, j, x + 1, y + 1);
    }
  }

  ghost function Sum(w: seq<nat>): nat {
    if w == [] then 0 else w[0] + Sum(w[1..])
  }

  lemma {:induction false} SumConcat(v: seq<nat>, w: seq<nat>)
    ensures Sum(v + w) == Sum(v) + Sum(w)
  {
    if v == [] {
      assert v + w == w;
    } else {
      SumConcat(v[1..], w);
      assert (v + w)[1..] == v[1..] + w;
    }
  }

  /** Taking equal heads gains their weight. */
  lemma {:induction false} BestTakesHead<T>(a: seq<T>, b: seq<T>, w: seq<nat>)
    requires |w| == |a| && UniformWeights(a, w) && a != [] && b != [] && a[0] == b[0]
    ensures Best(a, b, w, 0, 0) == w[0] + Best(a[1..], b[1..], w[1..], 0, 0)
  {
    DiagonalDominates(a, b, w, 0, 0);
    BestOfRest(a, b, w, 1, 1, 0, 0);
  }

  /** A pairing without the pair that uses a last element, if there is one. */
  lemma {:induction false} WithoutLast<T>(a: seq<T>, b: seq<T>, w: seq<nat>, p: seq<Pair>, i: nat, j: nat)
      returns (q: seq<Pair>)
    requires |w| == |a| && UniformWeights(a, w) && a != [] && b != [] && a[|a| - 1] == b[|b| - 1]
    requires Pairing(a, b, p, i, j)
    ensures Pairing(a[..|a| - 1], b[..|b| - 1], q, i, j)
    ensures Weight(w, p) <= Weight(w[..|w| - 1], q) + w[|w| - 1]
  {
    if p == [] {
      q := [];
    } else if p[0].0 < |a| - 1 && p[0].1 < |b| - 1 {
      var rest := WithoutLast(a, b, w, p[1..], p[0].0 + 1, p[0].1 + 1);
      q := [p[0]] + rest;
      assert q[1..] == rest;
    } else {
      q := [];
      assert p[1..] == [];
      assert Weight(w, p) == w[p[0].0];
    }
  }

  lemma {:induction false} WithLast<T>(a: seq<T>, b: seq<T>, w: seq<nat>, p: seq<Pair>, i: nat, j: nat)
    requires |w| == |a| && a != [] && b != [] && a[|a| - 1] == b[|b| - 1] && i < |a| && j < |b|
    requires Pairing(a[..|a| - 1], b[..|b| - 1], p, i, j)
    ensures Pairing(a, b, p + [(|a| - 1, |b| - 1)], i, j)
    ensures Weight(w, p + [(|a| - 1, |b| - 1)]) == Weight(w[..|w| - 1], p) + w[|w| - 1]
  {
    var last: seq<Pair> := [(|a| - 1, |b| - 1)];
    if p == [] {
      assert p + last == last;
      assert Weight(w, last) == w[|w| - 1] + Weight(w, last[1..]);
    } else {
      WithLast(a, b, w, p[1..], p[0].0 + 1, p[0].1 + 1);
      assert (p + last)[1..] == p[1..] + last;
    }
  }

  /** Taking equal last elements gains their weight. */
  lemma {:induction false} BestTakesLast<T>(a: seq<T>, b: seq<T>, w: seq<nat>)
    requires |w| == |a| && UniformWeights(a, w) && a != [] && b != [] && a[|a| - 1] == b[|b| - 1]
    ensures Best(a, b, w, 0, 0) == Best(a[..|a| - 1], b[..|b| - 1], w[..|w| - 1], 0, 0) + w[|w| - 1]
  {
    var a1, b1, w1 := a[..|a| - 1], b[..|b| - 1], w[..|w| - 1];
    TraceAttainsBest(a, b, w, 0, 0);
    var q := WithoutLast(a, b, w, Trace(a, b, w, 0, 0), 0, 0);
    BestIsUpperBound(a1, b1, w1, q, 0, 0);
    TraceAttainsBest(a1, b1, w1, 0, 0);
    WithLast(a, b, w, Trace(a1, b1, w1, 0, 0), 0, 0);
    BestIsUpperBound(a, b, w, Trace(a1, b1, w1, 0, 0) + [(|a| - 1, |b| - 1)], 0, 0);
  }

  lemma {:induction false} BestTakesPrefix<T>(front: seq<T>, a: seq<T>, b: seq<T>, v: seq<nat>, w: seq<nat>)
    requires |v| == |front| && |w| == |a| && UniformWeights(front + a, v + w)
    ensures Best(front + a, front + b, v + w, 0, 0) == Sum(v) + Best(a, b, w, 0, 0)
  {
    if front == [] {
      assert front + a == a && front + b == b && v + w == w;
    } else {
      var wholeA, wholeB, wholeW := front + a, front + b, v + w;
      BestTakesHead(wholeA, wholeB, wholeW);
      assert wholeA[1..] == front[1..] + a && wholeB[1..] == front[1..] + b && wholeW[1..] == v[1..] + w;
      UniformPart(wholeA, wholeW, 1, |wholeA|);
      assert wholeA[1..|wholeA|] == wholeA[1..] && wholeW[1..|wholeA|] == wholeW[1..];
      BestTakesPrefix(front[1..], a, b, v[1..], w);
    }
  }

  lemma {:induction false} BestTakesSuffix<T>(a: seq<T>, b: seq<T>, back: seq<T>, w: seq<nat>, v: seq<nat>)
    requires |v| == |back| && |w| == |a| && UniformWeights(a + back, w + v)
    ensures Best(a + back, b + back, w + v, 0, 0) == Best(a, b, w, 0, 0) + Sum(v)
  {
    if back == [] {
      assert a + back == a && b + back == b && w + v == w;
    } else {
      var n := |back| - 1;
      var wholeA, wholeB, wholeW := a + back, b + back, w + v;
      BestTakesLast(wholeA, wholeB, wholeW);
      assert wholeA[..|wholeA| - 1] == a + back[..n] && wholeB[..|wholeB| - 1] == b + back[..n];
      assert wholeW[..|wholeW| - 1] == w + v[..n];
      UniformPart(wholeA, wholeW, 0, |wholeA| - 1);
      assert wholeA[0..|wholeA| - 1] == wholeA[..|wholeA| - 1] && wholeW[0..|wholeA| - 1] == wholeW[..|wholeW| - 1];
      BestTakesSuffix(a, b, back[..n], w, v[..n]);
      assert v == v[..n] + [v[n]];
      SumConcat(v[..n], [v[n]]);
    }
  }

  lemma {:induction false} KeptWeight<T>(a: seq<T>, b: seq<T>, w: seq<nat>, pairs: seq<Pair>, i: nat, j: nat)
    requires |w| == |a| && Pairing(a, b, pairs, i, j)
    ensures Sum(LeftPaired(w, pairs)) == Weight(w, pairs)
  {
    if pairs != [] {
      KeptWeight(a, b, w, pairs[1..], pairs[0].0 + 1, pairs[0].1 + 1);
    }
  }

  lemma {:induction false} PairingOfWeights<T>(a: seq<T>, b: seq<T>, w: seq<nat>, pairs: seq<Pair>, i: nat, j: nat,
                                               k: nat)
    requires Pairing(a, b, pairs, i, j) && |w| == |a| && k <= i && k <= |a|
    ensures Kept(w[k..], LeftFlags(pairs, k, |a|)) == LeftPaired(w, pairs)
    decreases |a| - k
  {
    if k < |a| {
      assert w[k..][1..] == w[k + 1..];
      if pairs != [] && pairs[0].0 == k {
        PairingOfWeights(a, b, w, pairs[1..], k + 1, pairs[0].1 + 1, k + 1);
      } else if pairs != [] {
        PairingFromFirst(a, b, pairs, i, j);
        PairingOfWeights(a, b, w, pairs, pairs[0].0, pairs[0].1, k + 1);
      } else {
        PairingOfWeights(a, b, w, pairs, k + 1, j, k + 1);
      }
    } else {
      assert pairs == [];
    }
  }

  lemma {:induction false} UniformPart<T>(a: seq<T>, w: seq<nat>, lo: nat, hi: nat)
    requires |w| == |a| && UniformWeights(a, w) && lo <= hi <= |a|
    ensures UniformWeights(a[lo..hi], w[lo..hi])
  {
  }

  lemma {:induction false} InThree<T>(x: seq<T>, p: nat, s: nat)
    requires p + s <= |x|
    ensures x == x[..p] + (Between(x, p, s) + x[|x| - s..])
  {
  }

  lemma {:induction false} BestOfEnds<T>(a: seq<T>, b: seq<T>, w: seq<nat>, p: nat, s: nat)
    requires |w| == |a| && UniformWeights(a, w) && p + s <= |a| && p + s <= |b|
    requires a[..p] == b[..p] && a[|a| - s..] == b[|b| - s..]
    ensures Best(a, b, w, 0, 0)
         == Sum(w[..p]) + Best(Between(a, p, s), Between(b, p, s), Between(w, p, s), 0, 0) + Sum(w[|w| - s..])
  {
    InThree(a, p, s);
    InThree(b, p, s);
    InThree(w, p, s);
    var a1, b1, w1 := Between(a, p, s) + a[|a| - s..], Between(b, p, s) + b[|b| - s..], Between(w, p, s) + w[|w| - s..];
    BestTakesPrefix(a[..p], a1, b1, w[..p], w1);
    UniformPart(a, w, p, |a|);
    assert a[p..|a|] == a1 && w[p..|a|] == w1;
    BestTakesSuffix(Between(a, p, s), Between(b, p, s), a[|a| - s..], Between(w, p, s), w[|w| - s..]);
  }

  lemma {:induction false} FramedWeight(w: seq<nat>, p: nat, middle: seq<bool>, s: nat)
    requires |w| == p + |middle| + s
    ensures Sum(Kept(w, Framed(p, middle, s))) == Sum(w[..p]) + Sum(Kept(Between(w, p, s), middle)) + Sum(w[|w| - s..])
  {
    var kept := Kept(Between(w, p, s), middle);
    KeptFramed(w, p, middle, s);
    SumConcat(w[..p] + kept, w[|w| - s..]);
    SumConcat(w[..p], kept);
  }

  lemma {:induction false} MiddleWeight<T>(a: seq<T>, b: seq<T>, w: seq<nat>, pairs: seq<Pair>)
    requires |w| == |a| && Pairing(a, b, pairs, 0, 0)
    ensures Sum(Kept(w, LeftFlags(pairs, 0, |a|))) == Weight(w, pairs)
  {
    PairingOfWeights(a, b, w, pairs, 0, 0, 0);
    assert w[0..] == w;
    KeptWeight(a, b, w, pairs, 0, 0);
  }

  /** Keeping the equal ends and an optimal pairing of what is between them is optimal for the whole:
      no pairing of the two lines outweighs what is kept. */
  lemma {:induction false} EndsLoseNothing<T>(a: seq<T>, b: seq<T>, w: seq<nat>, pairs: seq<Pair>)
    requires |w| == |a| && UniformWeights(a, w) && MiddlePairing(a, b, pairs)
    requires var p, s := Prefix(a, b), Suffix(a, b);
             Weight(Between(w, p, s), pairs) == Best(Between(a, p, s), Between(b, p, s), Between(w, p, s), 0, 0)
    ensures Sum(Kept(w, LeftChanged(a, b, pairs))) == Best(a, b, w, 0, 0)
  {
    hide Best, UniformWeights, Prefix, Suffix;
    var p, s := Prefix(a, b), Suffix(a, b);
    FramedWeight(w, p, LeftFlags(pairs, 0, |a| - p - s), s);
    MiddleWeight(Between(a, p, s), Between(b, p, s), Between(w, p, s), pairs);
    EndsAreEqual(a, b);
    BestOfEnds(a, b, w, p, s);
  }

  // ----- The methods -----

  /** Scans the equal ends. */
  method FindEnds<T(==)>(a: seq<T>, b: seq<T>) returns (prefix: nat, leftSuffix: nat, rightSuffix: nat)
    ensures prefix == Prefix(a, b) && leftSuffix == |a| - Suffix(a, b) && rightSuffix == |b| - Suffix(a, b)
  {
    prefix := 0;
    while prefix < |a| && prefix < |b| && a[prefix] == b[prefix]
      invariant prefix <= |a| && prefix <= |b| && PrefixFrom(a, b, prefix) == Prefix(a, b)
    {
      prefix := prefix + 1;
    }
    leftSuffix, rightSuffix := |a|, |b|;
    while leftSuffix > prefix && rightSuffix > prefix && a[leftSuffix - 1] == b[rightSuffix - 1]
      invariant prefix <= leftSuffix <= |a| && prefix <= rightSuffix <= |b| && |a| - leftSuffix == |b| - rightSuffix
      invariant SuffixFrom(a, b, prefix, |a| - leftSuffix) == Suffix(a, b)
    {
      leftSuffix, rightSuffix := leftSuffix - 1, rightSuffix - 1;
    }
  }

  lemma {:induction false} Extend(done: seq<bool>, flag: bool, rest: seq<bool>)
    ensures done + ([flag] + rest) == (done + [flag]) + rest
  {
  }

  /** The flags gathered when the walk has reached `(i, j)`. */
  ghost predicate OnTrace<T>(a: seq<T>, b: seq<T>, w: seq<nat>, i: nat, j: nat, left: seq<bool>, right: seq<bool>) {
    && |w| == |a| && i == |left| <= |a| && j == |right| <= |b|
    && left + LeftFlags(Trace(a, b, w, i, j), i, |a|) == LeftFlags(Trace(a, b, w, 0, 0), 0, |a|)
    && right + RightFlags(Trace(a, b, w, i, j), j, |b|) == RightFlags(Trace(a, b, w, 0, 0), 0, |b|)
  }

  /** The walk through a `Best` table: flags for what it skips, none for what it pairs. */
  method WalkBest<T(==)>(a: seq<T>, b: seq<T>, w: seq<nat>, dp: seq<seq<nat>>)
      returns (left: seq<bool>, right: seq<bool>)
    requires TableIsBest(a, b, w, dp)
    ensures left == LeftFlags(Trace(a, b, w, 0, 0), 0, |a|) && right == RightFlags(Trace(a, b, w, 0, 0), 0, |b|)
  {
    left, right := [], [];
    while |left| < |a| && |right| < |b|
      invariant OnTrace(a, b, w, |left|, |right|, left, right)
      decreases |a| - |left| + |b| - |right|
    {
      left, right := WalkOne(a, b, w, dp, left, right);
    }
    FlagsOfNothing(|left|, |a|);
    FlagsOfNothing(|right|, |b|);
    left, right := left + Repeat(true, |a| - |left|), right + Repeat(true, |b| - |right|);
  }

  method WalkOne<T(==)>(a: seq<T>, b: seq<T>, w: seq<nat>, dp: seq<seq<nat>>, left: seq<bool>, right: seq<bool>)
    returns (left1: seq<bool>, right1: seq<bool>)
    requires TableIsBest(a, b, w, dp) && OnTrace(a, b, w, |left|, |right|, left, right) && |left| < |a| && |right| < |b|
    ensures OnTrace(a, b, w, |left1|, |right1|, left1, right1)
    ensures |left| + |right| < |left1| + |right1| && |left| <= |left1| && |right| <= |right1|
  {
    var i, j := |left|, |right|;
    StepTraceExtends(a, b, w, i, j, left, right);
    var move := ReadBest(a, b, w, dp, i, j);
    match move
    case Both => left1, right1 := left + [false], right + [false];
    case Left => left1, right1 := left + [true], right;
    case Right => left1, right1 := left, right + [true];
  }

  /** A step of the walk: pair the two units, or flag one of them. */
  datatype Move = Both | Left | Right

  function MoveAt<T(==)>(a: seq<T>, b: seq<T>, w: seq<nat>, i: nat, j: nat): Move
    requires |w| == |a| && i < |a| && j < |b|
  {
    if TakesDiagonal(a, b, w, i, j) then Both
    else if Best(a, b, w, i + 1, j) >= Best(a, b, w, i, j + 1) then Left
    else Right
  }

  method ReadBest<T(==)>(a: seq<T>, b: seq<T>, w: seq<nat>, dp: seq<seq<nat>>, i: nat, j: nat) returns (move: Move)
    requires TableIsBest(a, b, w, dp) && i < |a| && j < |b|
    ensures move == MoveAt(a, b, w, i, j)
  {
    assert RowIsBest(a, b, w, dp[i], i) && RowIsBest(a, b, w, dp[i + 1], i + 1);
    var skipLeft, skipRight := dp[i + 1][j], dp[i][j + 1];
    if a[i] == b[j] {
      var diagonal := w[i] + dp[i + 1][j + 1];
      if diagonal >= skipLeft && diagonal >= skipRight && dp[i][j] == diagonal {
        return Both;
      }
    }
    move := if skipLeft >= skipRight then Left else Right;
  }

  lemma {:induction false} FlagsOfNothing(k: nat, n: nat)
    requires k <= n
    ensures LeftFlags([], k, n) == RightFlags([], k, n) == Repeat(true, n - k)
    decreases n - k
  {
    if k < n {
      FlagsOfNothing(k + 1, n);
    }
  }

  /** One step of the walk, seen in the flags. */
  lemma {:induction false} StepTrace<T>(a: seq<T>, b: seq<T>, w: seq<nat>, i: nat, j: nat)
    requires |w| == |a| && i < |a| && j < |b|
    ensures var t := Trace(a, b, w, i, j);
            if TakesDiagonal(a, b, w, i, j) then
              && LeftFlags(t, i, |a|) == [false] + LeftFlags(Trace(a, b, w, i + 1, j + 1), i + 1, |a|)
              && RightFlags(t, j, |b|) == [false] + RightFlags(Trace(a, b, w, i + 1, j + 1), j + 1, |b|)
            else if Best(a, b, w, i + 1, j) >= Best(a, b, w, i, j + 1) then
              t == Trace(a, b, w, i + 1, j) && LeftFlags(t, i, |a|) == [true] + LeftFlags(t, i + 1, |a|)
            else
              t == Trace(a, b, w, i, j + 1) && RightFlags(t, j, |b|) == [true] + RightFlags(t, j + 1, |b|)
  {
    var t := Trace(a, b, w, i, j);
    if TakesDiagonal(a, b, w, i, j) {
      assert t[1..] == Trace(a, b, w, i + 1, j + 1);
    } else if Best(a, b, w, i + 1, j) >= Best(a, b, w, i, j + 1) {
      TraceAttainsBest(a, b, w, i + 1, j);
    } else {
      TraceAttainsBest(a, b, w, i, j + 1);
    }
  }

  /** ...and in the flags gathered so far. */
  lemma {:induction false} StepTraceExtends<T>(a: seq<T>, b: seq<T>, w: seq<nat>, i: nat, j: nat, left: seq<bool>,
                                               right: seq<bool>)
    requires |w| == |a| && i < |a| && j < |b|
    ensures var t := Trace(a, b, w, i, j);
            var lefts, rights := left + LeftFlags(t, i, |a|), right + RightFlags(t, j, |b|);
            match MoveAt(a, b, w, i, j)
            case Both =>
              && (left + [false]) + LeftFlags(Trace(a, b, w, i + 1, j + 1), i + 1, |a|) == lefts
              && (right + [false]) + RightFlags(Trace(a, b, w, i + 1, j + 1), j + 1, |b|) == rights
            case Left => t == Trace(a, b, w, i + 1, j) && (left + [true]) + LeftFlags(t, i + 1, |a|) == lefts
            case Right => t == Trace(a, b, w, i, j + 1) && (right + [true]) + RightFlags(t, j + 1, |b|) == rights
  {
    StepTrace(a, b, w, i, j);
    var t := Trace(a, b, w, i, j);
    match MoveAt(a, b, w, i, j)
    case Both =>
      var next := Trace(a, b, w, i + 1, j + 1);
      Extend(left, false, LeftFlags(next, i + 1, |a|));
      Extend(right, false, RightFlags(next, j + 1, |b|));
    case Left => Extend(left, true, LeftFlags(t, i + 1, |a|));
    case Right => Extend(right, true, RightFlags(t, j + 1, |b|));
  }

  ghost predicate TableIsGreedy<T>(a: seq<T>, b: seq<T>, w: seq<nat>, dp: seq<seq<nat>>) {
    && |w| == |a| && |dp| == |a| + 1
    && forall x | 0 <= x <= |a| :: RowIsGreedy(a, b, w, dp[x], x, 0, |b| + 1)
  }

  method FillGreedyRow<T(==)>(a: seq<T>, b: seq<T>, w: seq<nat>, i: nat, next: seq<nat>) returns (row: seq<nat>)
    requires |w| == |a| && i < |a| && RowIsGreedy(a, b, w, next, i + 1, 0, |b| + 1)
    ensures RowIsGreedy(a, b, w, row, i, 0, |b| + 1)
  {
    row := seq(|b| + 1, _ => 0);
    var j := |b|;
    while j > 0
      invariant 0 <= j <= |b| && |row| == |b| + 1
      invariant forall y | j <= y <= |b| :: row[y] == Greedy(a, b, w, i, y)
    {
      j := j - 1;
      var value := if a[i] == b[j] then next[j + 1] + w[i] else Max(next[j], row[j + 1]);
      row := row[j := value];
    }
  }

  method FillGreedy<T(==)>(a: seq<T>, b: seq<T>, w: seq<nat>) returns (dp: seq<seq<nat>>)
    requires |w| == |a|
    ensures TableIsGreedy(a, b, w, dp)
  {
    dp := seq(|a| + 1, _ => seq(|b| + 1, _ => 0));
    var i := |a|;
    while i > 0
      invariant 0 <= i <= |a| && |dp| == |a| + 1
      invariant forall x | i <= x <= |a| :: RowIsGreedy(a, b, w, dp[x], x, 0, |b| + 1)
    {
      i := i - 1;
      var row := FillGreedyRow(a, b, w, i, dp[i + 1]);
      dp := dp[i := row];
    }
  }

  ghost predicate OnGreedyTrace<T>(a: seq<T>, b: seq<T>, w: seq<nat>, i: nat, j: nat, left: seq<bool>,
                                   right: seq<bool>) {
    && |w| == |a| && i == |left| <= |a| && j == |right| <= |b|
    && left + LeftFlags(GreedyTrace(a, b, w, i, j), i, |a|) == LeftFlags(GreedyTrace(a, b, w, 0, 0), 0, |a|)
    && right + RightFlags(GreedyTrace(a, b, w, i, j), j, |b|) == RightFlags(GreedyTrace(a, b, w, 0, 0), 0, |b|)
  }

  method WalkGreedy<T(==)>(a: seq<T>, b: seq<T>, w: seq<nat>, dp: seq<seq<nat>>)
      returns (left: seq<bool>, right: seq<bool>)
    requires TableIsGreedy(a, b, w, dp)
    ensures left == LeftFlags(GreedyTrace(a, b, w, 0, 0), 0, |a|)
            && right == RightFlags(GreedyTrace(a, b, w, 0, 0), 0, |b|)
  {
    left, right := [], [];
    while |left| < |a| && |right| < |b|
      invariant OnGreedyTrace(a, b, w, |left|, |right|, left, right)
      decreases |a| - |left| + |b| - |right|
    {
      left, right := WalkOneGreedy(a, b, w, dp, left, right);
    }
    FlagsOfNothing(|left|, |a|);
    FlagsOfNothing(|right|, |b|);
    left, right := left + Repeat(true, |a| - |left|), right + Repeat(true, |b| - |right|);
  }

  method WalkOneGreedy<T(==)>(a: seq<T>, b: seq<T>, w: seq<nat>, dp: seq<seq<nat>>, left: seq<bool>, right: seq<bool>)
    returns (left1: seq<bool>, right1: seq<bool>)
    requires TableIsGreedy(a, b, w, dp) && OnGreedyTrace(a, b, w, |left|, |right|, left, right) && |left| < |a|
             && |right| < |b|
    ensures OnGreedyTrace(a, b, w, |left1|, |right1|, left1, right1)
    ensures |left| + |right| < |left1| + |right1| && |left| <= |left1| && |right| <= |right1|
  {
    var i, j := |left|, |right|;
    StepGreedyExtends(a, b, w, i, j, left, right);
    var skipLeft, skipRight := ReadGreedy(a, b, w, dp, i, j);
    if a[i] == b[j] {
      left1, right1 := left + [false], right + [false];
    } else if skipLeft >= skipRight {
      left1, right1 := left + [true], right;
    } else {
      left1, right1 := left, right + [true];
    }
  }

  method ReadGreedy<T(==)>(a: seq<T>, b: seq<T>, w: seq<nat>, dp: seq<seq<nat>>, i: nat, j: nat)
      returns (skipLeft: nat, skipRight: nat)
    requires TableIsGreedy(a, b, w, dp) && i < |a| && j < |b|
    ensures skipLeft == Greedy(a, b, w, i + 1, j) && skipRight == Greedy(a, b, w, i, j + 1)
  {
    assert RowIsGreedy(a, b, w, dp[i], i, 0, |b| + 1) && RowIsGreedy(a, b, w, dp[i + 1], i + 1, 0, |b| + 1);
    skipLeft, skipRight := dp[i + 1][j], dp[i][j + 1];
  }

  lemma {:induction false} StepGreedy<T>(a: seq<T>, b: seq<T>, w: seq<nat>, i: nat, j: nat)
    requires |w| == |a| && i < |a| && j < |b|
    ensures var t := GreedyTrace(a, b, w, i, j);
            if a[i] == b[j] then
              && LeftFlags(t, i, |a|) == [false] + LeftFlags(GreedyTrace(a, b, w, i + 1, j + 1), i + 1, |a|)
              && RightFlags(t, j, |b|) == [false] + RightFlags(GreedyTrace(a, b, w, i + 1, j + 1), j + 1, |b|)
            else if Greedy(a, b, w, i + 1, j) >= Greedy(a, b, w, i, j + 1) then
              t == GreedyTrace(a, b, w, i + 1, j) && LeftFlags(t, i, |a|) == [true] + LeftFlags(t, i + 1, |a|)
            else
              t == GreedyTrace(a, b, w, i, j + 1) && RightFlags(t, j, |b|) == [true] + RightFlags(t, j + 1, |b|)
  {
    var t := GreedyTrace(a, b, w, i, j);
    if a[i] == b[j] {
      assert t[1..] == GreedyTrace(a, b, w, i + 1, j + 1);
    } else if Greedy(a, b, w, i + 1, j) >= Greedy(a, b, w, i, j + 1) {
      GreedyTraceAttains(a, b, w, i + 1, j);
    } else {
      GreedyTraceAttains(a, b, w, i, j + 1);
    }
  }

  /** ...and in the flags gathered so far. */
  lemma {:induction false} StepGreedyExtends<T>(a: seq<T>, b: seq<T>, w: seq<nat>, i: nat, j: nat, left: seq<bool>,
                                                right: seq<bool>)
    requires |w| == |a| && i < |a| && j < |b|
    ensures var t := GreedyTrace(a, b, w, i, j);
            var lefts, rights := left + LeftFlags(t, i, |a|), right + RightFlags(t, j, |b|);
            if a[i] == b[j] then
              && (left + [false]) + LeftFlags(GreedyTrace(a, b, w, i + 1, j + 1), i + 1, |a|) == lefts
              && (right + [false]) + RightFlags(GreedyTrace(a, b, w, i + 1, j + 1), j + 1, |b|) == rights
            else if Greedy(a, b, w, i + 1, j) >= Greedy(a, b, w, i, j + 1) then
              t == GreedyTrace(a, b, w, i + 1, j) && (left + [true]) + LeftFlags(t, i + 1, |a|) == lefts
            else
              t == GreedyTrace(a, b, w, i, j + 1) && (right + [true]) + RightFlags(t, j + 1, |b|) == rights
  {
    StepGreedy(a, b, w, i, j);
    var t := GreedyTrace(a, b, w, i, j);
    if a[i] == b[j] {
      var next := GreedyTrace(a, b, w, i + 1, j + 1);
      Extend(left, false, LeftFlags(next, i + 1, |a|));
      Extend(right, false, RightFlags(next, j + 1, |b|));
    } else if Greedy(a, b, w, i + 1, j) >= Greedy(a, b, w, i, j + 1) {
      Extend(left, true, LeftFlags(t, i + 1, |a|));
    } else {
      Extend(right, true, RightFlags(t, j + 1, |b|));
    }
  }
}
