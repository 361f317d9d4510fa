/** Choosing which candidates to benchmark (backend/profile/benchmark.py): farthest-first traversal
    over feature vectors, seen through an arbitrary metric and an arbitrary norm. */
module Selection {

  type Metric = (nat, nat) -> real

  ghost predicate IsMetric(d: Metric) {
    && (forall x :: d(x, x) == 0.0)
    && (forall x, y :: d(x, y) >= 0.0 && d(x, y) == d(y, x))
    && (forall x, y, z :: d(x, z) <= d(x, y) + d(y, z))
  }

  /** All the scan itself needs of a metric. */
  ghost predicate NonNegative(d: Metric) { forall x, y :: d(x, y) >= 0.0 }

  /** Distance to the nearest selected candidate. */
  function Nearest(d: Metric, selected: seq<nat>, x: nat): real
    requires selected != []
  {
    if |selected| == 1 then d(x, selected[0])
    else
      var rest := Nearest(d, selected[..|selected| - 1], x);
      var last := d(x, selected[|selected| - 1]);
      if last < rest then last else rest
  }

  lemma {:induction false} NearestBound(d: Metric, selected: seq<nat>, x: nat)
    requires selected != []
    ensures forall k :: 0 <= k < |selected| ==> Nearest(d, selected, x) <= d(x, selected[k])
    ensures exists k :: 0 <= k < |selected| && Nearest(d, selected, x) == d(x, selected[k])
  {
    if |selected| == 1 {
      assert Nearest(d, selected, x) == d(x, selected[0]);
    } else {
      var front := selected[..|selected| - 1];
      NearestBound(d, front, x);
      var k :| 0 <= k < |front| && Nearest(d, front, x) == d(x, front[k]);
      assert selected[k] == front[k];
      var near := if d(x, selected[|front|]) < Nearest(d, front, x) then |front| else k;
      assert Nearest(d, selected, x) == d(x, selected[near]);
      assert forall j :: 0 <= j < |front| ==> front[j] == selected[j];
    }
  }

  lemma NearestShrinks(d: Metric, selected: seq<nat>, k: nat, x: nat)
    requires 0 < k <= |selected|
    ensures Nearest(d, selected, x) <= Nearest(d, selected[..k], x)
  {
    NearestBound(d, selected, x);
    NearestBound(d, selected[..k], x);
  }

  /** y is the first of the n candidates that are farthest from the selected ones. */
  ghost predicate Farthest(n: nat, d: Metric, selected: seq<nat>, y: nat)
    requires selected != []
  {
    && y < n && y !in selected
    && (forall x :: 0 <= x < n && x !in selected ==> Nearest(d, selected, x) <= Nearest(d, selected, y))
    && (forall x :: 0 <= x < y && x !in selected ==> Nearest(d, selected, x) < Nearest(d, selected, y))
  }

  /** From position `from` on, every candidate was the farthest one when it was added. */
  ghost predicate FarthestFirst(n: nat, d: Metric, selected: seq<nat>, from: nat) {
    0 < from && forall k :: from <= k < |selected| ==> Farthest(n, d, selected[..k], selected[k])
  }

  predicate IsFirstMax(n: nat, norm: nat -> real, y: nat) {
    && y < n
    && (forall x :: 0 <= x < n ==> norm(x) <= norm(y))
    && (forall x :: 0 <= x < y ==> norm(x) < norm(y))
  }

  predicate DistinctBelow(n: nat, selected: seq<nat>) {
    (forall k :: 0 <= k < |selected| ==> selected[k] < n) &&
    forall a, b :: 0 <= a < b < |selected| ==> selected[a] != selected[b]
  }

  /** A selection of `size` candidates: the first one, then (with at least two seeds) the first one of
      greatest norm, then always the farthest. */
  ghost predicate Greedy(n: nat, d: Metric, norm: nat -> real, seeds: int, size: nat, selected: seq<nat>) {
    && |selected| == size
    && DistinctBelow(n, selected)
    && (size > 0 ==> selected[0] == 0)
    && (size > 1 && seeds >= 2 && !IsFirstMax(n, norm, 0) ==> IsFirstMax(n, norm, selected[1]))
    && FarthestFirst(n, d, selected, Free(n, norm, seeds))
  }

  /** The position from which the farthest rule decides. */
  function Free(n: nat, norm: nat -> real, seeds: int): nat {
    if seeds >= 2 && !IsFirstMax(n, norm, 0) then 2 else 1
  }

  // ---------------------------------------------------------------------------------------------
  // The code

  method FirstMax(n: nat, norm: nat -> real) returns (best: nat)
    requires n > 0
    ensures IsFirstMax(n, norm, best)
  {
    best := 0;
    for k := 1 to n
      invariant best < k
      invariant forall x :: 0 <= x < k ==> norm(x) <= norm(best)
      invariant forall x :: 0 <= x < best ==> norm(x) < norm(best)
    {
      if norm(k) > norm(best) { best := k; }
    }
  }

  method MinDistance(d: Metric, selected: seq<nat>, x: nat) returns (least: real)
    requires selected != []
    ensures least == Nearest(d, selected, x)
  {
    least := d(x, selected[0]);
    assert selected[..1] == [selected[0]];
    for k := 1 to |selected|
      invariant least == Nearest(d, selected[..k], x)
    {
      assert selected[..k + 1][..k] == selected[..k];
      var next := d(x, selected[k]);
      if next < least { least := next; }
    }
    assert selected[..|selected|] == selected;
  }

  function Elements(s: seq<nat>): set<nat> {
    set x | x in s
  }

  lemma {:induction false} NoMoreElements(s: seq<nat>)
    ensures |Elements(s)| <= |s|
  {
    if s == [] {
      assert Elements(s) == {};
    } else {
      NoMoreElements(s[1..]);
      assert Elements(s) == {s[0]} + Elements(s[1..]);
    }
  }

  lemma SomeLeft(n: nat, selected: seq<nat>)
    requires |selected| < n
    ensures exists x :: 0 <= x < n && x !in selected
  {
    NoMoreElements(selected);
    if forall x :: 0 <= x < n ==> x in Elements(selected) {
      SizeAtLeast(Elements(selected), n);
    }
  }

  lemma {:induction false} SizeAtLeast(s: set<nat>, n: nat)
    requires forall x :: 0 <= x < n ==> x in s
    ensures |s| >= n
  {
    if n > 0 {
      var rest := s - {n - 1};
      SizeAtLeast(rest, n - 1);
    }
  }

  /** The scan over the remaining candidates: a strictly greater distance replaces the best one. */
  method PickFarthest(n: nat, d: Metric, selected: seq<nat>) returns (best: nat)
    requires NonNegative(d) && selected != [] && DistinctBelow(n, selected) && |selected| < n
    ensures Farthest(n, d, selected, best)
  {
    SomeLeft(n, selected);
    var found := false;
    var bestDistance := -1.0;
    best := 0;
    for idx := 0 to n
      invariant if found then bestDistance == Nearest(d, selected, best) &&
        BestSoFar(idx, d, selected, best) else bestDistance == -1.0
      invariant !found ==> forall x :: 0 <= x < idx ==> x in selected
    {
      if idx in selected {
        if found { BestStays(idx, d, selected, best); }
        continue;
      }
      var distance := MinDistance(d, selected, idx);
      NearestBound(d, selected, idx);
      if found {
        if distance > bestDistance { BestReplaced(idx, d, selected, best); } else { BestStays(idx, d, selected, best); }
      }
      if distance > bestDistance {
        bestDistance := distance;
        best := idx;
        found := true;
      }
    }
    assert found;
  }

  /** best is the first farthest of the candidates below idx. */
  ghost predicate BestSoFar(idx: nat, d: Metric, selected: seq<nat>, best: nat)
    requires selected != []
  {
    && best < idx && best !in selected
    && (forall x :: 0 <= x < idx && x !in selected ==> Nearest(d, selected, x) <= Nearest(d, selected, best))
    && (forall x :: 0 <= x < best && x !in selected ==> Nearest(d, selected, x) < Nearest(d, selected, best))
  }

  lemma BestStays(idx: nat, d: Metric, selected: seq<nat>, best: nat)
    requires selected != [] && BestSoFar(idx, d, selected, best)
    requires idx in selected || Nearest(d, selected, idx) <= Nearest(d, selected, best)
    ensures BestSoFar(idx + 1, d, selected, best)
  {
  }

  lemma BestReplaced(idx: nat, d: Metric, selected: seq<nat>, best: nat)
    requires selected != [] && BestSoFar(idx, d, selected, best)
    requires idx !in selected && Nearest(d, selected, idx) > Nearest(d, selected, best)
    ensures BestSoFar(idx + 1, d, selected, idx)
  {
  }

  /** `_pick_diverse_seed_indices`. */
  method PickDiverseSeeds(n: nat, d: Metric, norm: nat -> real, wanted: int) returns (selected: seq<nat>)
    requires IsMetric(d)
    ensures Greedy(n, d, norm, wanted, if n == 0 || wanted <= 0 then 0 else if wanted < n then wanted else n, selected)
  {
    if n == 0 || wanted <= 0 { return []; }
    var count := if wanted < n then wanted else n;
    selected := [0];
    if count == 1 { return; }
    var farthest := FirstMax(n, norm);
    if farthest !in selected { selected := selected + [farthest]; }
    var free := Free(n, norm, wanted);
    while |selected| < count
      invariant 0 < |selected| <= count && |selected| >= free
      invariant DistinctBelow(n, selected) && selected[0] == 0
      invariant free == 2 ==> IsFirstMax(n, norm, selected[1])
      invariant FarthestFirst(n, d, selected, free)
    {
      var next := PickFarthest(n, d, selected);
      ExtendGreedy(n, d, selected, free, next);
      selected := selected + [next];
    }
  }

  lemma ExtendGreedy(n: nat, d: Metric, selected: seq<nat>, free: nat, next: nat)
    requires selected != [] && FarthestFirst(n, d, selected, free) && Farthest(n, d, selected, next)
    ensures FarthestFirst(n, d, selected + [next], free)
  {
    var longer := selected + [next];
    forall k | free <= k < |longer| ensures Farthest(n, d, longer[..k], longer[k]) {
      if k < |selected| {
        assert longer[..k] == selected[..k];
      } else {
        assert longer[..k] == selected;
      }
    }
  }

  /** `_select_optimized_expression_indices`. */
  method SelectOptimized(n: nat, d: Metric, norm: nat -> real, maxBenchmarks: int, seedSamples: int)
      returns (selected: seq<nat>)
    requires IsMetric(d)
    ensures n <= maxBenchmarks ==> |selected| == n && forall k :: 0 <= k < n ==> selected[k] == k
    ensures 0 <= maxBenchmarks < n ==>
      Greedy(n, d, norm, if seedSamples < maxBenchmarks then seedSamples else maxBenchmarks, maxBenchmarks, selected)
    ensures maxBenchmarks < 0 ==> selected == []
  {
    if n <= maxBenchmarks {
      return seq(n, k requires 0 <= k < n => k);
    }
    var wanted := if seedSamples < 1 then 1 else seedSamples;
    var seedCount := if wanted < maxBenchmarks then wanted else maxBenchmarks;
    selected := PickDiverseSeeds(n, d, norm, seedCount);
    ghost var free := Free(n, norm, seedCount);
    while |selected| < maxBenchmarks
      invariant maxBenchmarks > 0 ==> 0 < |selected| <= maxBenchmarks
      invariant maxBenchmarks <= 0 ==> selected == []
      invariant DistinctBelow(n, selected)
      invariant |selected| > 0 ==> selected[0] == 0
      invariant |selected| > 1 && free == 2 ==> IsFirstMax(n, norm, selected[1])
      invariant free == 2 && |selected| > 0 ==> |selected| >= 2
      invariant FarthestFirst(n, d, selected, free)
    {
      var next := PickFarthest(n, d, selected);
      ExtendGreedy(n, d, selected, free, next);
      selected := selected + [next];
    }
  }

  // ---------------------------------------------------------------------------------------------
  // How well the selection covers

  /** Balls of radius r around the centres hold every candidate; centres need not be candidates. */
  ghost predicate Covered(n: nat, d: Metric, centres: seq<nat>, r: real) {
    forall x :: 0 <= x < n ==> InSomeBall(d, centres, r, x)
  }

  ghost predicate InSomeBall(d: Metric, centres: seq<nat>, r: real, x: nat) {
    exists c :: 0 <= c < |centres| && d(x, centres[c]) <= r
  }

  lemma {:induction false} Pigeonhole(f: seq<nat>, k: nat)
    requires |f| > k && forall i :: 0 <= i < |f| ==> f[i] < k
    ensures exists i, j :: 0 <= i < j < |f| && f[i] == f[j]
    decreases k
  {
    var last := |f| - 1;
    if j :| 0 <= j < last && f[j] == f[last] {
    } else {
      // Give the number k - 1 to nobody but the last one, then drop it.
      var g := seq(last, i requires 0 <= i < last => if f[i] == k - 1 then f[last] else f[i]);
      Pigeonhole(g, k - 1);
      var i, j :| 0 <= i < j < |g| && g[i] == g[j];
      assert f[i] == f[j];
    }
  }

  /** Among more candidates than there are balls, two are within twice the radius. */
  lemma TwoInOneBall(n: nat, d: Metric, points: seq<nat>, centres: seq<nat>, r: real)
    requires IsMetric(d) && Covered(n, d, centres, r) && |points| > |centres|
    requires forall i :: 0 <= i < |points| ==> points[i] < n
    ensures exists i, j :: 0 <= i < j < |points| && d(points[i], points[j]) <= 2.0 * r
  {
    assert forall i :: 0 <= i < |points| ==> InSomeBall(d, centres, r, points[i]);
    var owner := seq(|points|, i requires 0 <= i < |points| =>
      var c :| 0 <= c < |centres| && d(points[i], centres[c]) <= r; c);
    Pigeonhole(owner, |centres|);
    var i, j :| 0 <= i < j < |owner| && owner[i] == owner[j];
    var c := centres[owner[i]];
    assert d(points[i], points[j]) <= d(points[i], c) + d(c, points[j]);
    assert d(c, points[j]) == d(points[j], c);
  }

  /** The points the farthest rule chose, with the first one: all but the max-norm seed. */
  function Spread(selected: seq<nat>, free: nat): (points: seq<nat>)
    requires 0 < free <= |selected|
    ensures |points| == 1 + |selected| - free
  {
    [selected[0]] + selected[free..]
  }

  lemma ChosenApart(n: nat, d: Metric, selected: seq<nat>, free: nat, x: nat, reach: real, a: nat, b: nat)
    requires IsMetric(d) && FarthestFirst(n, d, selected, free) && a < b && free <= b < |selected|
    requires x < n && Nearest(d, selected, x) > reach >= 0.0
    ensures d(selected[a], selected[b]) > reach
  {
    NearestBound(d, selected, x);
    assert x !in selected[..b];
    assert Farthest(n, d, selected[..b], selected[b]);
    NearestShrinks(d, selected, b, x);
    NearestBound(d, selected[..b], selected[b]);
    assert selected[..b][a] == selected[a];
    assert d(selected[b], selected[a]) == d(selected[a], selected[b]);
  }

  lemma SpreadFarApart(n: nat, d: Metric, selected: seq<nat>, free: nat, x: nat, reach: real, i: nat, j: nat)
    requires IsMetric(d) && 0 < free <= |selected|
    requires FarthestFirst(n, d, selected, free) && x < n && Nearest(d, selected, x) > reach >= 0.0
    requires i < j < |Spread(selected, free)| + 1
    ensures var points := Spread(selected, free) + [x]; d(points[i], points[j]) > reach
  {
    var points := Spread(selected, free) + [x];
    var a, b := if i == 0 then 0 else free + i - 1, free + j - 1;
    assert points[i] == selected[a];
    if j == |selected| - free + 1 {
      NearestBound(d, selected, x);
      assert d(x, selected[a]) == d(selected[a], x);
    } else {
      assert points[j] == selected[b];
      ChosenApart(n, d, selected, free, x, reach, a, b);
    }
  }

  /** Every candidate is within twice the radius any `maxBenchmarks - 1` balls need, in any metric; and
      within twice the radius of `maxBenchmarks` balls when the farthest rule chose all but the first. */
  lemma SelectionCovers(n: nat, d: Metric, norm: nat -> real, seeds: int, size: nat, selected: seq<nat>,
      centres: seq<nat>, r: real, x: nat)
    requires IsMetric(d) && 0 < size < n && Greedy(n, d, norm, seeds, size, selected) && seeds <= size
    requires Covered(n, d, centres, r) && x < n
    requires |centres| <= size - 1 || (|centres| <= size && Free(n, norm, seeds) == 1)
    ensures Nearest(d, selected, x) <= 2.0 * r
  {
    var free := Free(n, norm, seeds);
    var points := Spread(selected, free) + [x];
    assert forall i :: 0 <= i < |points| ==> points[i] < n;
    assert InSomeBall(d, centres, r, x);
    var c :| 0 <= c < |centres| && d(x, centres[c]) <= r;
    assert d(x, centres[c]) >= 0.0;
    TwoInOneBall(n, d, points, centres, r);
    var i, j :| 0 <= i < j < |points| && d(points[i], points[j]) <= 2.0 * r;
    if Nearest(d, selected, x) > 2.0 * r {
      SpreadFarApart(n, d, selected, free, x, 2.0 * r, i, j);
    }
  }
}
