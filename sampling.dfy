/** Furthest-point sampling of a cloud, and the centroid of a cloud. */
module Sampling {
  import opened Geometry
  import opened CloudTypes

  function Square(t: real): real {
    t * t
  }

  /** The squared Euclidean distance, the row sum of (p0 - p)**2. */
  function SqDist(a: Vec3, b: Vec3): real {
    var d := Add(a, Neg(b));
    Square(d.x) + Square(d.y) + Square(d.z)
  }

  lemma MulPositive(a: real, b: real)
    requires a > 0.0 && b > 0.0
    ensures a * b > 0.0
  {
  }

  /** The identity, used to give the solver a product whose two factors it does not see as one. */
  ghost function Same(t: real): real {
    t
  }

  /** A square is never negative, and is positive away from 0. */
  lemma SquareSign(t: real)
    ensures Square(t) >= 0.0
    ensures t != 0.0 ==> Square(t) > 0.0
  {
    if t > 0.0 {
      MulPositive(t, Same(t));
      assert Square(t) == t * Same(t);
    } else if t < 0.0 {
      MulPositive(-t, Same(-t));
      assert Square(t) == -t * Same(-t);
    } else {
      assert Square(t) == 0.0;
    }
  }

  /** A squared distance is never negative, and is zero exactly between equal points. */
  lemma SqDistZero(a: Vec3, b: Vec3)
    ensures SqDist(a, b) >= 0.0
    ensures SqDist(a, b) == 0.0 <==> a == b
  {
    var d := Add(a, Neg(b));
    SquareSign(d.x);
    SquareSign(d.y);
    SquareSign(d.z);
    assert a == b <==> d.x == 0.0 && d.y == 0.0 && d.z == 0.0;
  }

  /** calc_distances: the squared distance from p0 to every point, in order. */
  function CalcDistances(p0: Vec3, points: seq<Vec3>): (d: seq<real>)
    ensures |d| == |points|
  {
    seq(|points|, j requires 0 <= j < |points| => SqDist(p0, points[j]))
  }

  /** Every distance calc_distances returns is non-negative and is zero exactly at copies of p0. */
  lemma CalcDistancesSign(p0: Vec3, points: seq<Vec3>)
    ensures forall j :: 0 <= j < |points| ==>
              CalcDistances(p0, points)[j] >= 0.0 && (CalcDistances(p0, points)[j] == 0.0 <==> points[j] == p0)
  {
    forall j | 0 <= j < |points|
      ensures CalcDistances(p0, points)[j] >= 0.0 && (CalcDistances(p0, points)[j] == 0.0 <==> points[j] == p0)
    {
      SqDistZero(p0, points[j]);
    }
  }

  /** np.minimum: the element-wise minimum of two equally long arrays. */
  function Minimum(a: seq<real>, b: seq<real>): (m: seq<real>)
    requires |a| == |b|
    ensures |m| == |a|
  {
    seq(|a|, j requires 0 <= j < |a| => if b[j] < a[j] then b[j] else a[j])
  }

  /** Each entry of the element-wise minimum is the smaller of the two entries there. */
  lemma MinimumAt(a: seq<real>, b: seq<real>, j: nat)
    requires |a| == |b| && j < |a|
    ensures var m := Minimum(a, b); m[j] <= a[j] && m[j] <= b[j] && (m[j] == a[j] || m[j] == b[j])
  {
  }

  /** The scan np.argmax performs from index i on, with best the first index of the largest
      value among d[..i]. */
  function ArgMaxFrom(d: seq<real>, i: nat, best: nat): (k: nat)
    requires best < i <= |d|
    ensures k < |d|
    decreases |d| - i
  {
    if i == |d| then best
    else ArgMaxFrom(d, i + 1, if d[i] > d[best] then i else best)
  }

  /** np.argmax: the first index holding the largest value. */
  function ArgMax(d: seq<real>): (k: nat)
    requires |d| > 0
    ensures k < |d|
  {
    ArgMaxFrom(d, 1, 0)
  }

  predicate IsFirstMax(d: seq<real>, k: nat, i: nat)
    requires k < i <= |d|
  {
    (forall j :: 0 <= j < i ==> d[j] <= d[k]) && (forall j :: 0 <= j < k ==> d[j] < d[k])
  }

  lemma {:induction false} ArgMaxFromIsFirstMax(d: seq<real>, i: nat, best: nat)
    requires best < i <= |d| && IsFirstMax(d, best, i)
    ensures IsFirstMax(d, ArgMaxFrom(d, i, best), |d|)
    decreases |d| - i
  {
    if i < |d| {
      var next := if d[i] > d[best] then i else best;
      assert IsFirstMax(d, next, i + 1);
      ArgMaxFromIsFirstMax(d, i + 1, next);
    }
  }

  /** The index np.argmax returns holds the largest value, and no earlier index holds it. */
  lemma ArgMaxIsFirstMax(d: seq<real>)
    requires |d| > 0
    ensures forall j :: 0 <= j < |d| ==> d[j] <= d[ArgMax(d)]
    ensures forall j :: 0 <= j < ArgMax(d) ==> d[j] < d[ArgMax(d)]
  {
    ArgMaxFromIsFirstMax(d, 1, 0);
  }

  predicate ValidPicks(pts: seq<Vec3>, sel: seq<nat>) {
    forall t :: 0 <= t < |sel| ==> sel[t] < |pts|
  }

  /** The state of the sampling loop: the indices picked so far and the running distances. */
  datatype Sampler = Sampler(picks: seq<nat>, distances: seq<real>)

  /** The loop state after n picks: first the seed and its distances; then, each time, the first
      index of largest running distance, whose distances lower the running ones element-wise. */
  function Run(pts: seq<Vec3>, seed: nat, n: nat): (s: Sampler)
    requires 1 <= n && seed < |pts|
    ensures |s.picks| == n && s.picks[0] == seed && ValidPicks(pts, s.picks) && |s.distances| == |pts|
  {
    if n == 1 then Sampler([seed], CalcDistances(pts[seed], pts))
    else
      var prev := Run(pts, seed, n - 1);
      var next := ArgMax(prev.distances);
      Sampler(prev.picks + [next], Minimum(prev.distances, CalcDistances(pts[next], pts)))
  }

  /** The points at the given indices. */
  function Gather(pts: seq<Vec3>, sel: seq<nat>): (rows: seq<Vec3>)
    requires ValidPicks(pts, sel)
    ensures |rows| == |sel|
    ensures forall t :: 0 <= t < |sel| ==> rows[t] in pts
  {
    seq(|sel|, t requires 0 <= t < |sel| => pts[sel[t]])
  }

  /** furthest_point_sampling with the random first index given as seed: k rows, row 0 the seed
      point, each later row the point furthest from the rows before it. */
  method FurthestPointSampling(pts: seq<Vec3>, k: nat, seed: nat) returns (farthest: seq<Vec3>)
    requires 1 <= k && seed < |pts|
    ensures farthest == Gather(pts, Run(pts, seed, k).picks)
    ensures |farthest| == k && farthest[0] == pts[seed]
    ensures forall t :: 0 <= t < k ==> farthest[t] in pts
  {
    var farthestPts := new Vec3[k];
    farthestPts[0] := pts[seed];
    var distances := CalcDistances(farthestPts[0], pts);
    ghost var picks: seq<nat> := [seed];
    for i := 1 to k
      invariant Run(pts, seed, i).picks == picks && Run(pts, seed, i).distances == distances
      invariant forall t :: 0 <= t < i ==> farthestPts[t] == pts[picks[t]]
    {
      var j := ArgMax(distances);
      farthestPts[i] := pts[j];
      distances := Minimum(distances, CalcDistances(farthestPts[i], pts));
      picks := picks + [j];
    }
    farthest := farthestPts[..];
    assert farthest == Gather(pts, picks);
  }

  lemma PrefixOfAppend<T>(a: seq<T>, b: seq<T>, m: nat)
    requires m <= |a|
    ensures (a + b)[..m] == a[..m]
  {
  }

  /** Picking more points only appends: the first m picks of n are the picks of m. */
  lemma {:induction false} PicksPrefix(pts: seq<Vec3>, seed: nat, m: nat, n: nat)
    requires 1 <= m <= n && seed < |pts|
    ensures Run(pts, seed, n).picks[..m] == Run(pts, seed, m).picks
    decreases n
  {
    if m < n {
      PicksPrefix(pts, seed, m, n - 1);
      var prev := Run(pts, seed, n - 1);
      PrefixOfAppend(prev.picks, [ArgMax(prev.distances)], m);
    }
  }

  /** Pick i (i >= 1) is the first index of largest running distance after picks 0 .. i - 1. */
  lemma PickIsFirstFurthest(pts: seq<Vec3>, seed: nat, n: nat, i: nat)
    requires 1 <= i < n && seed < |pts|
    ensures var p, d := Run(pts, seed, n).picks[i], Run(pts, seed, i).distances;
            p < |pts| && (forall j :: 0 <= j < |pts| ==> d[j] <= d[p]) && (forall j :: 0 <= j < p ==> d[j] < d[p])
  {
    PicksPrefix(pts, seed, i + 1, n);
    assert Run(pts, seed, n).picks[i] == Run(pts, seed, i + 1).picks[i];
    ArgMaxIsFirstMax(Run(pts, seed, i).distances);
  }

  /** The squared distance from point j to the nearest of the selected points. */
  function NearestSqDist(pts: seq<Vec3>, sel: seq<nat>, j: nat): real
    requires 1 <= |sel| && ValidPicks(pts, sel) && j < |pts|
  {
    var last := SqDist(pts[sel[|sel| - 1]], pts[j]);
    if |sel| == 1 then last
    else
      var rest := NearestSqDist(pts, sel[..|sel| - 1], j);
      if last < rest then last else rest
  }

  /** The nearest squared distance is at most the distance to every selected point and equals the
      distance to one of them. */
  lemma {:induction false} NearestSqDistIsMinimum(pts: seq<Vec3>, sel: seq<nat>, j: nat)
    requires 1 <= |sel| && ValidPicks(pts, sel) && j < |pts|
    ensures forall t :: 0 <= t < |sel| ==> NearestSqDist(pts, sel, j) <= SqDist(pts[sel[t]], pts[j])
    ensures exists t :: 0 <= t < |sel| && NearestSqDist(pts, sel, j) == SqDist(pts[sel[t]], pts[j])
    decreases |sel|
  {
    var n := |sel|;
    if n == 1 {
      assert NearestSqDist(pts, sel, j) == SqDist(pts[sel[0]], pts[j]);
    } else {
      var init := sel[..n - 1];
      NearestSqDistIsMinimum(pts, init, j);
      assert forall t :: 0 <= t < n - 1 ==> init[t] == sel[t];
      if NearestSqDist(pts, sel, j) != SqDist(pts[sel[n - 1]], pts[j]) {
        var t :| 0 <= t < n - 1 && NearestSqDist(pts, init, j) == SqDist(pts[init[t]], pts[j]);
        assert NearestSqDist(pts, sel, j) == SqDist(pts[sel[t]], pts[j]);
      }
    }
  }

  /** After n picks the running distance of each point is its squared distance to the nearest pick. */
  lemma {:induction false} DistancesAreNearest(pts: seq<Vec3>, seed: nat, n: nat, j: nat)
    requires 1 <= n && seed < |pts| && j < |pts|
    ensures Run(pts, seed, n).distances[j] == NearestSqDist(pts, Run(pts, seed, n).picks, j)
    decreases n
  {
    if n > 1 {
      var prev := Run(pts, seed, n - 1);
      var next := ArgMax(prev.distances);
      var s := Run(pts, seed, n);
      assert s.picks == prev.picks + [next];
      assert s.distances == Minimum(prev.distances, CalcDistances(pts[next], pts));
      var last := SqDist(pts[next], pts[j]);
      assert s.distances[j] == (if last < prev.distances[j] then last else prev.distances[j]) by {
        MinimumAt(prev.distances, CalcDistances(pts[next], pts), j);
      }
      assert s.picks[..n - 1] == prev.picks;
      DistancesAreNearest(pts, seed, n - 1, j);
    }
  }

  /** After n picks the running distance of a point is at most its squared distance to every
      pick, and equals its squared distance to one of them. */
  lemma DistancesAreMinimum(pts: seq<Vec3>, seed: nat, n: nat, j: nat)
    requires 1 <= n && seed < |pts| && j < |pts|
    ensures var s := Run(pts, seed, n);
            forall t :: 0 <= t < n ==> s.distances[j] <= SqDist(pts[s.picks[t]], pts[j])
    ensures var s := Run(pts, seed, n);
            exists t :: 0 <= t < n && s.distances[j] == SqDist(pts[s.picks[t]], pts[j])
  {
    DistancesAreNearest(pts, seed, n, j);
    NearestSqDistIsMinimum(pts, Run(pts, seed, n).picks, j);
  }

  predicate Distinct(pts: seq<Vec3>) {
    forall i, j :: 0 <= i < j < |pts| ==> pts[i] != pts[j]
  }

  predicate NoRepeat(sel: seq<nat>) {
    forall s, t :: 0 <= s < t < |sel| ==> sel[s] != sel[t]
  }

  /** Removing entry t from a repetition-free index list below size leaves a shorter
      repetition-free list below size that misses sel[t] and keeps every other entry. */
  lemma RemoveAt(sel: seq<nat>, t: nat, size: nat)
    requires NoRepeat(sel) && t < |sel| && forall u :: 0 <= u < |sel| ==> sel[u] < size
    ensures var rest := sel[..t] + sel[t + 1..];
            |rest| == |sel| - 1 && NoRepeat(rest) &&
            (forall s :: 0 <= s < |rest| ==> rest[s] < size && rest[s] != sel[t]) &&
            (forall x :: x in sel ==> x == sel[t] || x in rest)
  {
    var rest := sel[..t] + sel[t + 1..];
    assert forall s :: 0 <= s < t ==> rest[s] == sel[s];
    assert forall s :: t <= s < |rest| ==> rest[s] == sel[s + 1];
    forall a, b | 0 <= a < b < |rest| ensures rest[a] != rest[b] {
      var ia := if a < t then a else a + 1;
      var ib := if b < t then b else b + 1;
      assert rest[a] == sel[ia] && rest[b] == sel[ib];
    }
    forall s | 0 <= s < |rest| ensures rest[s] < size && rest[s] != sel[t] {
      var i := if s < t then s else s + 1;
      assert rest[s] == sel[i];
    }
    forall x | x in sel ensures x == sel[t] || x in rest {
      var u :| 0 <= u < |sel| && sel[u] == x;
      if u < t {
        assert rest[u] == x;
      } else if u > t {
        assert rest[u - 1] == x;
      }
    }
  }

  /** Fewer than size distinct indices below size leave some index out. */
  lemma {:induction false} SomeIndexLeft(sel: seq<nat>, size: nat)
    requires NoRepeat(sel) && |sel| < size && forall t :: 0 <= t < |sel| ==> sel[t] < size
    ensures exists j :: 0 <= j < size && j !in sel
    decreases size
  {
    var last := size - 1;
    if last in sel {
      var t :| 0 <= t < |sel| && sel[t] == last;
      var rest := sel[..t] + sel[t + 1..];
      RemoveAt(sel, t, size);
      SomeIndexLeft(rest, last);
      var j :| 0 <= j < last && j !in rest;
      assert j !in sel;
    } else {
      assert last !in sel;
    }
  }

  /** A point's own running distance is 0 once it has been picked. */
  lemma PickedHaveZeroDistance(pts: seq<Vec3>, seed: nat, n: nat, t: nat)
    requires 1 <= n && seed < |pts| && t < n
    ensures Run(pts, seed, n).distances[Run(pts, seed, n).picks[t]] == 0.0
  {
    var s := Run(pts, seed, n);
    var p := s.picks[t];
    DistancesAreMinimum(pts, seed, n, p);
    SqDistZero(pts[p], pts[p]);
    var u :| 0 <= u < n && s.distances[p] == SqDist(pts[s.picks[u]], pts[p]);
    SqDistZero(pts[s.picks[u]], pts[p]);
  }

  /** A point not yet picked has a positive running distance when the points are distinct. */
  lemma UnpickedHavePositiveDistance(pts: seq<Vec3>, seed: nat, n: nat, j: nat)
    requires 1 <= n && seed < |pts| && j < |pts| && Distinct(pts)
    requires j !in Run(pts, seed, n).picks
    ensures Run(pts, seed, n).distances[j] > 0.0
  {
    var s := Run(pts, seed, n);
    DistancesAreMinimum(pts, seed, n, j);
    var u :| 0 <= u < n && s.distances[j] == SqDist(pts[s.picks[u]], pts[j]);
    var p := s.picks[u];
    assert p != j;
    assert pts[p] != pts[j] by {
      if p < j { assert pts[p] != pts[j]; } else { assert pts[j] != pts[p]; }
    }
    SqDistZero(pts[p], pts[j]);
  }

  /** While fewer than |pts| distinct points have been picked, the next pick is a new index. */
  lemma NextIsNew(pts: seq<Vec3>, seed: nat, n: nat)
    requires 1 <= n < |pts| && seed < |pts| && Distinct(pts)
    requires NoRepeat(Run(pts, seed, n).picks)
    ensures ArgMax(Run(pts, seed, n).distances) !in Run(pts, seed, n).picks
  {
    var s := Run(pts, seed, n);
    var next := ArgMax(s.distances);
    SomeIndexLeft(s.picks, |pts|);
    var j :| 0 <= j < |pts| && j !in s.picks;
    UnpickedHavePositiveDistance(pts, seed, n, j);
    ArgMaxIsFirstMax(s.distances);
    assert s.distances[next] > 0.0;
    forall t | 0 <= t < n ensures s.picks[t] != next {
      PickedHaveZeroDistance(pts, seed, n, t);
    }
  }

  lemma AppendNoRepeat(sel: seq<nat>, next: nat)
    requires NoRepeat(sel) && next !in sel
    ensures NoRepeat(sel + [next])
  {
    var ext := sel + [next];
    forall a, b | 0 <= a < b < |ext| ensures ext[a] != ext[b] {
      if b < |sel| {
        assert ext[a] == sel[a] && ext[b] == sel[b];
      } else {
        assert ext[a] == sel[a] && ext[b] == next;
      }
    }
  }

  /** With pairwise-distinct points and k <= |pts|, no index is picked twice: picked points have
      running distance 0 and some unpicked point has a positive one. */
  lemma {:induction false} PicksDistinct(pts: seq<Vec3>, seed: nat, n: nat)
    requires 1 <= n <= |pts| && seed < |pts| && Distinct(pts)
    ensures NoRepeat(Run(pts, seed, n).picks)
    decreases n
  {
    if n > 1 {
      var prev := Run(pts, seed, n - 1);
      var next := ArgMax(prev.distances);
      assert NoRepeat(prev.picks) && next !in prev.picks by {
        PicksDistinct(pts, seed, n - 1);
        NextIsNew(pts, seed, n - 1);
      }
      AppendNoRepeat(prev.picks, next);
      assert Run(pts, seed, n).picks == prev.picks + [next];
    }
  }

  /** The indices 0 .. size - 1. */
  function Below(size: nat): (r: set<nat>)
    ensures |r| == size
    ensures forall x: nat :: x in r <==> x < size
  {
    if size == 0 then {} else Below(size - 1) + {size - 1}
  }

  /** A repetition-free list drawn from s has at most |s| entries. */
  lemma {:induction false} NoRepeatFits(sel: seq<nat>, s: set<nat>)
    requires NoRepeat(sel) && forall t :: 0 <= t < |sel| ==> sel[t] in s
    ensures |sel| <= |s|
    decreases |sel|
  {
    if |sel| > 0 {
      var last := sel[|sel| - 1];
      var init := sel[..|sel| - 1];
      forall t | 0 <= t < |init| ensures init[t] in s - {last} {
        assert init[t] == sel[t] && sel[t] != last;
      }
      NoRepeatFits(init, s - {last});
      assert (s - {last}) + {last} == s;
    }
  }

  /** size distinct indices below size are all of them. */
  lemma AllIndicesPicked(sel: seq<nat>, size: nat)
    requires NoRepeat(sel) && |sel| == size && forall t :: 0 <= t < |sel| ==> sel[t] < size
    ensures forall j :: 0 <= j < size ==> j in sel
  {
    forall j | 0 <= j < size ensures j in sel {
      if j !in sel {
        assert (Below(size) - {j}) + {j} == Below(size);
        NoRepeatFits(sel, Below(size) - {j});
        assert false;
      }
    }
  }

  /** In a sequence of distinct points every point occurs at most once. */
  lemma {:induction false} DistinctCount(s: seq<Vec3>, x: Vec3)
    requires Distinct(s)
    ensures multiset(s)[x] == if x in s then 1 else 0
    decreases |s|
  {
    if |s| > 0 {
      var init := s[..|s| - 1];
      var last := s[|s| - 1];
      assert s == init + [last];
      assert Distinct(init);
      DistinctCount(init, x);
      assert last !in init by {
        forall t | 0 <= t < |init| ensures init[t] != last {
          assert init[t] == s[t];
        }
      }
    }
  }

  /** With pairwise-distinct points and K = N the sample is the whole cloud, rearranged. */
  lemma SampleAllIsPermutation(pts: seq<Vec3>, seed: nat)
    requires seed < |pts| && Distinct(pts)
    ensures multiset(Gather(pts, Run(pts, seed, |pts|).picks)) == multiset(pts)
  {
    var sel := Run(pts, seed, |pts|).picks;
    PicksDistinct(pts, seed, |pts|);
    AllIndicesPicked(sel, |pts|);
    var g := Gather(pts, sel);
    assert Distinct(g) by {
      forall a, b | 0 <= a < b < |g| ensures g[a] != g[b] {
        assert sel[a] != sel[b];
        if sel[a] < sel[b] { assert pts[sel[a]] != pts[sel[b]]; } else { assert pts[sel[b]] != pts[sel[a]]; }
      }
    }
    forall x ensures multiset(g)[x] == multiset(pts)[x] {
      DistinctCount(g, x);
      DistinctCount(pts, x);
      if x in pts {
        var j :| 0 <= j < |pts| && pts[j] == x;
        assert j in sel;
        var t :| 0 <= t < |sel| && sel[t] == j;
        assert g[t] == x;
      }
    }
    assert multiset(g) == multiset(pts);
  }

  /** Without distinct points an index can be picked twice: from [a, b, b] seeded at 0, every
      running distance is 0 after two picks, and argmax then returns index 0 again. */
  lemma RepeatedPointsRepeatPick(a: Vec3, b: Vec3)
    requires a != b
    ensures Run([a, b, b], 0, 3).picks == [0, 1, 0]
  {
    var pts := [a, b, b];
    SqDistZero(a, a);
    SqDistZero(a, b);
    SqDistZero(b, a);
    SqDistZero(b, b);
    var d0 := Run(pts, 0, 1).distances;
    assert d0 == [0.0, SqDist(a, b), SqDist(a, b)];
    assert ArgMax(d0) == 1 by {
      assert ArgMaxFrom(d0, 1, 0) == ArgMaxFrom(d0, 2, 1) == ArgMaxFrom(d0, 3, 1);
    }
    var d1 := Run(pts, 0, 2).distances;
    assert d1 == Minimum(d0, CalcDistances(b, pts));
    assert d1 == [0.0, 0.0, 0.0];
    assert ArgMax(d1) == 0 by {
      assert ArgMaxFrom(d1, 1, 0) == ArgMaxFrom(d1, 2, 0) == ArgMaxFrom(d1, 3, 0);
    }
  }

  /** The component-wise sum of a cloud. */
  function Sum(points: seq<Vec3>): Vec3 {
    if |points| == 0 then Vec3(0.0, 0.0, 0.0) else Add(Sum(points[..|points| - 1]), points[|points| - 1])
  }

  /** get_centroid_from_pc: the component-wise mean; an empty cloud has none (numpy's mean of no
      rows is NaN). */
  function Centroid(points: seq<Vec3>): (c: Option<Vec3>)
    ensures c.None? <==> |points| == 0
  {
    if |points| == 0 then None else Some(Scale(1.0 / |points| as real, Sum(points)))
  }

  function Translate(points: seq<Vec3>, offset: Vec3): (moved: seq<Vec3>)
    ensures |moved| == |points|
  {
    seq(|points|, i requires 0 <= i < |points| => Add(points[i], offset))
  }

  lemma MulSucc(n: nat, a: real)
    ensures (n + 1) as real * a == n as real * a + a
  {
  }

  /** The offset added to itself n times. */
  function Repeat(offset: Vec3, n: nat): Vec3 {
    if n == 0 then Vec3(0.0, 0.0, 0.0) else Add(Repeat(offset, n - 1), offset)
  }

  lemma {:induction false} RepeatIsScale(offset: Vec3, n: nat)
    ensures Repeat(offset, n) == Scale(n as real, offset)
    decreases n
  {
    if n > 0 {
      RepeatIsScale(offset, n - 1);
      MulSucc(n - 1, offset.x);
      MulSucc(n - 1, offset.y);
      MulSucc(n - 1, offset.z);
    }
  }

  lemma {:induction false} SumTranslate(points: seq<Vec3>, offset: Vec3)
    ensures Sum(Translate(points, offset)) == Add(Sum(points), Repeat(offset, |points|))
    decreases |points|
  {
    if |points| > 0 {
      var n := |points| - 1;
      SumTranslate(points[..n], offset);
      assert Translate(points, offset)[..n] == Translate(points[..n], offset);
    }
  }

  lemma MeanOfShift(n: real, s: Vec3, t: Vec3)
    requires n > 0.0
    ensures Scale(1.0 / n, Add(s, Scale(n, t))) == Add(Scale(1.0 / n, s), t)
  {
    assert (1.0 / n) * (n * t.x) == t.x;
    assert (1.0 / n) * (n * t.y) == t.y;
    assert (1.0 / n) * (n * t.z) == t.z;
  }

  /** Moving every point of a non-empty cloud by an offset moves its centroid by that offset. */
  lemma CentroidTranslate(points: seq<Vec3>, offset: Vec3)
    requires |points| > 0
    ensures Centroid(Translate(points, offset)) == Some(Add(Centroid(points).value, offset))
  {
    var n := |points| as real;
    SumTranslate(points, offset);
    RepeatIsScale(offset, |points|);
    assert Sum(Translate(points, offset)) == Add(Sum(points), Scale(n, offset));
    MeanOfShift(n, Sum(points), offset);
  }

  /** The real a added to itself n times. */
  function Times(a: real, n: nat): real {
    if n == 0 then 0.0 else Times(a, n - 1) + a
  }

  lemma {:induction false} TimesIsProduct(a: real, n: nat)
    ensures Times(a, n) == n as real * a
    decreases n
  {
    if n > 0 {
      TimesIsProduct(a, n - 1);
      MulSucc(n - 1, a);
    }
  }

  lemma ComponentAdd(a: Vec3, b: Vec3, axis: nat)
    requires axis < 3
    ensures Component(Add(a, b), axis) == Component(a, axis) + Component(b, axis)
  {
  }

  lemma {:induction false} SumBounds(points: seq<Vec3>, axis: nat, lo: real, hi: real)
    requires axis < 3
    requires forall i :: 0 <= i < |points| ==> lo <= Component(points[i], axis) <= hi
    ensures Times(lo, |points|) <= Component(Sum(points), axis) <= Times(hi, |points|)
    decreases |points|
  {
    if |points| > 0 {
      var n := |points| - 1;
      SumBounds(points[..n], axis, lo, hi);
      ComponentAdd(Sum(points[..n]), points[n], axis);
    }
  }

  lemma MeanBounds(n: real, s: real, lo: real, hi: real)
    requires n > 0.0 && n * lo <= s <= n * hi
    ensures lo <= (1.0 / n) * s <= hi
  {
    assert (1.0 / n) * (n * lo) == lo;
    assert (1.0 / n) * (n * hi) == hi;
    assert (1.0 / n) * (s - n * lo) >= 0.0;
    assert (1.0 / n) * (n * hi - s) >= 0.0;
  }

  lemma ComponentScale(k: real, a: Vec3, axis: nat)
    requires axis < 3
    ensures Component(Scale(k, a), axis) == k * Component(a, axis)
  {
  }

  /** The centroid lies within any bounds every point keeps to, axis by axis. */
  lemma CentroidBounds(points: seq<Vec3>, axis: nat, lo: real, hi: real)
    requires |points| > 0 && axis < 3
    requires forall i :: 0 <= i < |points| ==> lo <= Component(points[i], axis) <= hi
    ensures lo <= Component(Centroid(points).value, axis) <= hi
  {
    var n := |points| as real;
    var s := Component(Sum(points), axis);
    assert n * lo <= s <= n * hi by {
      SumBounds(points, axis, lo, hi);
      TimesIsProduct(lo, |points|);
      TimesIsProduct(hi, |points|);
    }
    assert Component(Centroid(points).value, axis) == (1.0 / n) * s by {
      ComponentScale(1.0 / n, Sum(points), axis);
    }
    MeanBounds(n, s, lo, hi);
  }

  /** A cloud of copies of one point has that point as centroid. */
  lemma CentroidOfCopies(points: seq<Vec3>, p: Vec3)
    requires |points| > 0 && forall i :: 0 <= i < |points| ==> points[i] == p
    ensures Centroid(points) == Some(p)
  {
    CentroidBounds(points, 0, p.x, p.x);
    CentroidBounds(points, 1, p.y, p.y);
    CentroidBounds(points, 2, p.z, p.z);
  }
}
