/**
 Lloyd's algorithm as the product quantizer runs it, over the reals.
 */
module Kmeans {

  type Pt = seq<real>

  ghost predicate Uniform(ps: seq<Pt>, dim: nat) {
    forall i :: 0 <= i < |ps| ==> |ps[i]| == dim
  }

  function Sq(x: real): (r: real)
    ensures r >= 0.0
  {
    x * x
  }

  function SqDist(a: Pt, b: Pt): (r: real)
    requires |a| == |b|
    ensures r >= 0.0
  {
    if a == [] then 0.0 else SqDist(a[..|a| - 1], b[..|b| - 1]) + Sq(a[|a| - 1] - b[|b| - 1])
  }

  /** The centroid closest to p, the first of those that tie. */
  ghost predicate IsNearest(p: Pt, cents: seq<Pt>, c: nat)
    requires Uniform(cents, |p|)
  {
    && c < |cents|
    && (forall j :: 0 <= j < |cents| ==> SqDist(p, cents[c]) <= SqDist(p, cents[j]))
    && forall j :: 0 <= j < c ==> SqDist(p, cents[c]) < SqDist(p, cents[j])
  }

  ghost predicate Assigned(assign: seq<nat>, k: nat) {
    forall i :: 0 <= i < |assign| ==> assign[i] < k
  }

  /** Total squared distance of the points to the centroids they are assigned to. */
  ghost function Cost(points: seq<Pt>, cents: seq<Pt>, assign: seq<nat>, dim: nat): real
    requires |assign| == |points| && Uniform(points, dim) && Uniform(cents, dim) && Assigned(assign, |cents|)
    decreases |points|
  {
    if points == [] then 0.0
    else
      var n := |points| - 1;
      Cost(points[..n], cents, assign[..n], dim) + SqDist(points[n], cents[assign[n]])
  }

  /** Every point goes to a nearest centroid. */
  ghost predicate AllNearest(points: seq<Pt>, cents: seq<Pt>, assign: seq<nat>, dim: nat)
    requires |assign| == |points| && Uniform(points, dim) && Uniform(cents, dim)
  {
    forall i :: 0 <= i < |points| ==> IsNearest(points[i], cents, assign[i])
  }

  /** The nearest assignment is the cheapest one. */
  lemma {:induction false} NearestIsCheapest(points: seq<Pt>, cents: seq<Pt>, a: seq<nat>, b: seq<nat>, dim: nat)
    requires |a| == |b| == |points| && Uniform(points, dim) && Uniform(cents, dim)
    requires Assigned(a, |cents|) && Assigned(b, |cents|) && AllNearest(points, cents, a, dim)
    ensures Cost(points, cents, a, dim) <= Cost(points, cents, b, dim)
    decreases |points|
  {
    hide SqDist;
    if points != [] {
      var n := |points| - 1;
      NearestIsCheapest(points[..n], cents, a[..n], b[..n], dim);
      assert IsNearest(points[n], cents, a[n]);
    }
  }

  // ---- One coordinate of one centroid ----

  ghost function Count(assign: seq<nat>, c: nat): nat {
    if assign == [] then 0 else Count(assign[..|assign| - 1], c) + if assign[|assign| - 1] == c then 1 else 0
  }

  ghost function Sum(points: seq<Pt>, assign: seq<nat>, c: nat, d: nat): real
    requires |assign| == |points| && forall i :: 0 <= i < |points| ==> d < |points[i]|
    decreases |points|
  {
    if points == [] then 0.0
    else
      var n := |points| - 1;
      Sum(points[..n], assign[..n], c, d) + if assign[n] == c then points[n][d] else 0.0
  }

  /** Squared distance in coordinate d of cluster c's points to z. */
  ghost function Cell(points: seq<Pt>, assign: seq<nat>, c: nat, d: nat, z: real): real
    requires |assign| == |points| && forall i :: 0 <= i < |points| ==> d < |points[i]|
    decreases |points|
  {
    if points == [] then 0.0
    else
      var n := |points| - 1;
      Cell(points[..n], assign[..n], c, d, z) + if assign[n] == c then Sq(points[n][d] - z) else 0.0
  }

  lemma {:induction false} SqDistUpdate(p: Pt, v: Pt, d: nat, z: real)
    requires |p| == |v| && d < |v|
    ensures SqDist(p, v[d := z]) - SqDist(p, v) == Sq(p[d] - z) - Sq(p[d] - v[d])
    decreases |p|
  {
    hide Sq;
    var n := |p| - 1;
    if d < n {
      SqDistUpdate(p[..n], v[..n], d, z);
      assert v[d := z][..n] == v[..n][d := z];
    } else {
      assert v[d := z][..n] == v[..n];
    }
  }

  lemma {:induction false} CostUpdate(points: seq<Pt>, cents: seq<Pt>, assign: seq<nat>, dim: nat, c: nat, d: nat, z: real)
    requires |assign| == |points| && Uniform(points, dim) && Uniform(cents, dim) && Assigned(assign, |cents|)
    requires c < |cents| && d < dim
    ensures Uniform(cents[c := cents[c][d := z]], dim)
    ensures Cost(points, cents[c := cents[c][d := z]], assign, dim) - Cost(points, cents, assign, dim) ==
            Cell(points, assign, c, d, z) - Cell(points, assign, c, d, cents[c][d])
    decreases |points|
  {
    hide Sq, SqDist;
    if points != [] {
      var n := |points| - 1;
      CostUpdate(points[..n], cents, assign[..n], dim, c, d, z);
      if assign[n] == c {
        SqDistUpdate(points[n], cents[c], d, z);
      }
    }
  }

  /** Sum of squares, for the expansion below. */
  ghost function Squares(points: seq<Pt>, assign: seq<nat>, c: nat, d: nat): real
    requires |assign| == |points| && forall i :: 0 <= i < |points| ==> d < |points[i]|
    decreases |points|
  {
    if points == [] then 0.0
    else
      var n := |points| - 1;
      Squares(points[..n], assign[..n], c, d) + if assign[n] == c then Sq(points[n][d]) else 0.0
  }

  /** n points with sum s and sum of squares q, measured from z. */
  ghost function Spread(q: real, s: real, n: nat, z: real): real {
    q - 2.0 * (z * s) + n as real * Sq(z)
  }

  lemma {:induction false} CellExpands(points: seq<Pt>, assign: seq<nat>, c: nat, d: nat, z: real)
    requires |assign| == |points| && forall i :: 0 <= i < |points| ==> d < |points[i]|
    ensures Cell(points, assign, c, d, z) ==
            Spread(Squares(points, assign, c, d), Sum(points, assign, c, d), Count(assign, c), z)
    decreases |points|
  {
    hide Sq, Spread;
    if points == [] {
      SpreadNothing(z);
    } else {
      var n := |points| - 1;
      CellExpands(points[..n], assign[..n], c, d, z);
      SpreadOne(points[n][d], z, Squares(points[..n], assign[..n], c, d), Sum(points[..n], assign[..n], c, d), Count(assign[..n], c));
    }
  }

  lemma SpreadNothing(z: real)
    ensures Spread(0.0, 0.0, 0, z) == 0.0
  {
  }

  lemma SpreadOne(x: real, z: real, q: real, s: real, n: nat)
    ensures Spread(q, s, n, z) + Sq(x - z) == Spread(q + Sq(x), s + x, n + 1, z)
    ensures Spread(q + 0.0, s + 0.0, n + 0, z) == Spread(q, s, n, z)
  {
    assert Sq(x - z) == Sq(x) - 2.0 * (z * x) + Sq(z);
    assert z * (s + x) == z * s + z * x;
    assert (n + 1) as real * Sq(z) == n as real * Sq(z) + Sq(z);
  }

  /** The mean is the cheapest value of a coordinate; any other costs n times the squared difference more. */
  lemma MeanIsCheapest(points: seq<Pt>, assign: seq<nat>, c: nat, d: nat, z: real, m: real)
    requires |assign| == |points| && forall i :: 0 <= i < |points| ==> d < |points[i]|
    requires Count(assign, c) as real * m == Sum(points, assign, c, d)
    ensures Cell(points, assign, c, d, z) == Cell(points, assign, c, d, m) + Count(assign, c) as real * Sq(z - m)
    ensures Cell(points, assign, c, d, m) <= Cell(points, assign, c, d, z)
  {
    hide Cell, Squares, Sum, Count;
    CellExpands(points, assign, c, d, z);
    CellExpands(points, assign, c, d, m);
    Complete(Count(assign, c), z, m, Sum(points, assign, c, d));
  }

  lemma Complete(n: nat, z: real, m: real, s: real)
    requires n as real * m == s
    ensures -2.0 * (z * s) + n as real * Sq(z) == -2.0 * (m * s) + n as real * Sq(m) + n as real * Sq(z - m)
    ensures n as real * Sq(z - m) >= 0.0
  {
    var r := n as real;
    assert Sq(z - m) == Sq(z) - 2.0 * (z * m) + Sq(m);
    assert r * Sq(z - m) == r * Sq(z) - 2.0 * (r * (z * m)) + r * Sq(m);
    assert z * s == z * (r * m) == r * (z * m);
    assert m * s == m * (r * m) == r * Sq(m);
    NonNegative(r, Sq(z - m));
  }

  lemma NonNegative(a: real, b: real)
    requires a >= 0.0 && b >= 0.0
    ensures a * b >= 0.0
  {
  }

  // ---- One iteration ----

  method Nearest(p: Pt, cents: seq<Pt>) returns (best: nat)
    requires |cents| > 0 && Uniform(cents, |p|)
    ensures IsNearest(p, cents, best)
  {
    hide SqDist;
    best := 0;
    var bestDist := SqDist(p, cents[0]);
    for c := 1 to |cents|
      invariant best < c && bestDist == SqDist(p, cents[best])
      invariant forall j :: 0 <= j < c ==> bestDist <= SqDist(p, cents[j])
      invariant forall j :: 0 <= j < best ==> bestDist < SqDist(p, cents[j])
    {
      var d := SqDist(p, cents[c]);
      if d < bestDist {
        bestDist, best := d, c;
      }
    }
  }

  /** Sends every point to its nearest centroid and says whether any moved. */
  method Assign(points: seq<Pt>, cents: seq<Pt>, assign: seq<nat>, ghost dim: nat) returns (now: seq<nat>, changed: bool)
    requires |assign| == |points| && |cents| > 0 && Uniform(points, dim) && Uniform(cents, dim)
    ensures |now| == |points| && Assigned(now, |cents|) && AllNearest(points, cents, now, dim)
    ensures changed <==> now != assign
  {
    hide SqDist, IsNearest;
    now, changed := assign, false;
    for i := 0 to |points|
      invariant |now| == |points| && (forall j :: i <= j < |points| ==> now[j] == assign[j])
      invariant forall j :: 0 <= j < i ==> now[j] < |cents| && IsNearest(points[j], cents, now[j])
      invariant changed <==> now[..i] != assign[..i]
    {
      var best := Nearest(points[i], cents);
      assert best < |cents| by { NearestInRange(points[i], cents, best); }
      assert assign[..i + 1] == assign[..i] + [assign[i]];
      assert now[..i + 1] == now[..i] + [now[i]];
      ghost var before := now[..i];
      if now[i] != best {
        changed := true;
        now := now[i := best];
        assert now[..i + 1] == before + [best];
      }
    }
    assert now[..|now|] == now && assign[..|assign|] == assign;
  }

  lemma NearestInRange(p: Pt, cents: seq<Pt>, c: nat)
    requires Uniform(cents, |p|) && IsNearest(p, cents, c)
    ensures c < |cents|
  {
  }

  /** Per-cluster coordinate sums and sizes, in one pass over the points. */
  method Tally(points: seq<Pt>, assign: seq<nat>, k: nat, dim: nat) returns (sums: seq<seq<real>>, counts: seq<nat>)
    requires |assign| == |points| && Uniform(points, dim) && Assigned(assign, k)
    ensures |sums| == |counts| == k && Uniform(sums, dim)
    ensures forall c :: 0 <= c < k ==> counts[c] == Count(assign, c)
    ensures forall c, d :: 0 <= c < k && 0 <= d < dim ==> sums[c][d] == Sum(points, assign, c, d)
  {
    sums, counts := seq(k, _ => seq(dim, _ => 0.0)), seq(k, _ => 0);
    for i := 0 to |points|
      invariant |sums| == |counts| == k && Uniform(sums, dim)
      invariant forall c :: 0 <= c < k ==> counts[c] == Count(assign[..i], c)
      invariant forall c, d :: 0 <= c < k && 0 <= d < dim ==> sums[c][d] == Sum(points[..i], assign[..i], c, d)
    {
      hide Sum, Count;
      var c := assign[i];
      counts := counts[c := counts[c] + 1];
      var row := AddTo(sums[c], points[i]);
      sums := sums[c := row];
      TallyStep(points, assign, i, k, dim);
    }
    assert points[..|points|] == points && assign[..|assign|] == assign;
  }

  method AddTo(row: seq<real>, p: Pt) returns (out: seq<real>)
    requires |row| == |p|
    ensures |out| == |row| && forall d :: 0 <= d < |row| ==> out[d] == row[d] + p[d]
  {
    out := row;
    for d := 0 to |p|
      invariant |out| == |row| && forall j :: 0 <= j < |row| ==> out[j] == row[j] + if j < d then p[j] else 0.0
    {
      out := out[d := out[d] + p[d]];
    }
  }

  lemma TallyStep(points: seq<Pt>, assign: seq<nat>, i: nat, k: nat, dim: nat)
    requires |assign| == |points| && Uniform(points, dim) && i < |points|
    ensures forall c: nat :: c < k ==> Count(assign[..i + 1], c) == Count(assign[..i], c) + if assign[i] == c then 1 else 0
    ensures forall c: nat, d: nat :: c < k && d < dim ==>
              Sum(points[..i + 1], assign[..i + 1], c, d) == Sum(points[..i], assign[..i], c, d) + if assign[i] == c then points[i][d] else 0.0
  {
    assert points[..i + 1][..i] == points[..i] && assign[..i + 1][..i] == assign[..i];
  }

  /** Non-empty clusters sit at the mean of their points. */
  ghost predicate AtMeans(points: seq<Pt>, cents: seq<Pt>, assign: seq<nat>, dim: nat)
    requires |assign| == |points| && Uniform(points, dim) && Uniform(cents, dim)
  {
    forall c, d :: 0 <= c < |cents| && 0 <= d < dim && Count(assign, c) > 0 ==>
      Count(assign, c) as real * cents[c][d] == Sum(points, assign, c, d)
  }

  /** Empty clusters stay where they were. */
  ghost predicate EmptyKept(cents: seq<Pt>, now: seq<Pt>, assign: seq<nat>) {
    |now| == |cents| && forall c :: 0 <= c < |cents| && Count(assign, c) == 0 ==> now[c] == cents[c]
  }

  /** Moves every non-empty cluster to its mean, coordinate by coordinate. */
  method MoveToMeans(points: seq<Pt>, cents: seq<Pt>, assign: seq<nat>, dim: nat) returns (now: seq<Pt>)
    requires |assign| == |points| && Uniform(points, dim) && Uniform(cents, dim) && Assigned(assign, |cents|)
    ensures |now| == |cents| && Uniform(now, dim) && AtMeans(points, now, assign, dim) && EmptyKept(cents, now, assign)
    ensures Cost(points, now, assign, dim) <= Cost(points, cents, assign, dim)
  {
    hide Cost, Count, Sum;
    var k := |cents|;
    var sums, counts := Tally(points, assign, k, dim);
    now := cents;
    for c := 0 to k
      invariant |now| == k && Uniform(now, dim) && Cost(points, now, assign, dim) <= Cost(points, cents, assign, dim)
      invariant forall j :: c <= j < k ==> now[j] == cents[j]
      invariant forall j, d :: 0 <= j < c && 0 <= d < dim && Count(assign, j) > 0 ==>
        Count(assign, j) as real * now[j][d] == Sum(points, assign, j, d)
      invariant forall j :: 0 <= j < c && Count(assign, j) == 0 ==> now[j] == cents[j]
    {
      if counts[c] == 0 { continue; }
      now := MoveOne(points, now, assign, dim, c, sums[c], counts[c]);
    }
  }

  method MoveOne(points: seq<Pt>, cents: seq<Pt>, assign: seq<nat>, dim: nat, c: nat, sums: seq<real>, count: nat) returns (now: seq<Pt>)
    requires |assign| == |points| && Uniform(points, dim) && Uniform(cents, dim) && Assigned(assign, |cents|) && c < |cents|
    requires count == Count(assign, c) && count > 0 && |sums| == dim && forall d :: 0 <= d < dim ==> sums[d] == Sum(points, assign, c, d)
    ensures |now| == |cents| && Uniform(now, dim) && (forall j :: 0 <= j < |cents| && j != c ==> now[j] == cents[j])
    ensures forall d :: 0 <= d < dim ==> count as real * now[c][d] == Sum(points, assign, c, d)
    ensures Cost(points, now, assign, dim) <= Cost(points, cents, assign, dim)
  {
    hide Cost, Count, Sum, Cell;
    now := cents;
    for d := 0 to dim
      invariant |now| == |cents| && Uniform(now, dim) && (forall j :: 0 <= j < |cents| && j != c ==> now[j] == cents[j])
      invariant forall e :: 0 <= e < d ==> count as real * now[c][e] == Sum(points, assign, c, e)
      invariant Cost(points, now, assign, dim) <= Cost(points, cents, assign, dim)
    {
      var m := sums[d] / count as real;
      Divide(sums[d], count);
      CostUpdate(points, now, assign, dim, c, d, m);
      MeanIsCheapest(points, assign, c, d, now[c][d], m);
      now := now[c := now[c][d := m]];
    }
  }

  lemma Divide(s: real, n: nat)
    requires n > 0
    ensures n as real * (s / n as real) == s
  {
  }

  // ---- Descent, for any centroids ----

  lemma {:induction false} EmptyCell(points: seq<Pt>, assign: seq<nat>, c: nat, d: nat, z: real)
    requires |assign| == |points| && Count(assign, c) == 0 && forall i :: 0 <= i < |points| ==> d < |points[i]|
    ensures Cell(points, assign, c, d, z) == 0.0
    decreases |points|
  {
    if points != [] { EmptyCell(points[..|points| - 1], assign[..|points| - 1], c, d, z); }
  }

  lemma CoordinateGains(points: seq<Pt>, cents: seq<Pt>, now: seq<Pt>, assign: seq<nat>, dim: nat, c: nat, d: nat)
    requires |assign| == |points| && Uniform(points, dim) && Uniform(cents, dim) && Uniform(now, dim) && |now| == |cents|
    requires Assigned(assign, |cents|) && AtMeans(points, now, assign, dim) && c < |cents| && d < dim
    ensures var next := cents[c := cents[c][d := now[c][d]]];
            Uniform(next, dim) && Cost(points, next, assign, dim) <= Cost(points, cents, assign, dim)
  {
    hide Cost, Cell, Sum, Count;
    CostUpdate(points, cents, assign, dim, c, d, now[c][d]);
    if Count(assign, c) == 0 {
      EmptyCell(points, assign, c, d, now[c][d]);
      EmptyCell(points, assign, c, d, cents[c][d]);
    } else {
      MeanIsCheapest(points, assign, c, d, cents[c][d], now[c][d]);
    }
  }

  lemma CentroidGains(points: seq<Pt>, cents: seq<Pt>, now: seq<Pt>, assign: seq<nat>, dim: nat, c: nat)
    requires |assign| == |points| && Uniform(points, dim) && Uniform(cents, dim) && Uniform(now, dim) && |now| == |cents|
    requires Assigned(assign, |cents|) && AtMeans(points, now, assign, dim) && c < |cents|
    ensures Uniform(cents[c := now[c]], dim) && Cost(points, cents[c := now[c]], assign, dim) <= Cost(points, cents, assign, dim)
  {
    hide Cost, AtMeans;
    var cur := cents;
    for d := 0 to dim
      invariant |cur| == |cents| && Uniform(cur, dim) && Cost(points, cur, assign, dim) <= Cost(points, cents, assign, dim)
      invariant forall j :: 0 <= j < |cents| && j != c ==> cur[j] == cents[j]
      invariant forall e :: 0 <= e < d ==> cur[c][e] == now[c][e]
    {
      CoordinateGains(points, cur, now, assign, dim, c, d);
      cur := cur[c := cur[c][d := now[c][d]]];
    }
    assert cur[c] == now[c];
    assert cur == cents[c := now[c]];
  }

  /** For a fixed assignment, means are the best centroids there are. */
  lemma MeansAreCheapest(points: seq<Pt>, cents: seq<Pt>, now: seq<Pt>, assign: seq<nat>, dim: nat)
    requires |assign| == |points| && Uniform(points, dim) && Uniform(cents, dim) && Uniform(now, dim) && |now| == |cents|
    requires Assigned(assign, |cents|) && AtMeans(points, now, assign, dim)
    ensures Cost(points, now, assign, dim) <= Cost(points, cents, assign, dim)
  {
    hide Cost, AtMeans;
    var cur := cents;
    for c := 0 to |cents|
      invariant |cur| == |cents| && Uniform(cur, dim) && Cost(points, cur, assign, dim) <= Cost(points, cents, assign, dim)
      invariant forall j :: 0 <= j < c ==> cur[j] == now[j]
    {
      CentroidGains(points, cur, now, assign, dim, c);
      cur := cur[c := now[c]];
    }
    assert cur == now;
  }

  /** A Lloyd iteration never raises the total squared distance, empty clusters included. */
  lemma LloydDescends(points: seq<Pt>, cents: seq<Pt>, now: seq<Pt>, a: seq<nat>, b: seq<nat>, dim: nat)
    requires |a| == |b| == |points| && Uniform(points, dim) && Uniform(cents, dim) && Uniform(now, dim) && |now| == |cents|
    requires Assigned(a, |cents|) && Assigned(b, |cents|)
    requires AllNearest(points, cents, a, dim) && AtMeans(points, now, a, dim) && AllNearest(points, now, b, dim)
    ensures Cost(points, now, b, dim) <= Cost(points, cents, a, dim)
  {
    MeansAreCheapest(points, cents, now, a, dim);
    NearestIsCheapest(points, now, b, a, dim);
  }

  /** A run that stopped early is stuck: no other assignment or centroids alone would be cheaper. */
  lemma EarlyExitIsLocallyBest(points: seq<Pt>, cents: seq<Pt>, assign: seq<nat>, dim: nat, otherCents: seq<Pt>, otherAssign: seq<nat>)
    requires |assign| == |otherAssign| == |points| && Uniform(points, dim) && Uniform(cents, dim) && Uniform(otherCents, dim)
    requires |otherCents| == |cents| && Assigned(assign, |cents|) && Assigned(otherAssign, |cents|)
    requires AtMeans(points, cents, assign, dim) && AllNearest(points, cents, assign, dim)
    ensures Cost(points, cents, assign, dim) <= Cost(points, otherCents, assign, dim)
    ensures Cost(points, cents, assign, dim) <= Cost(points, cents, otherAssign, dim)
  {
    MeansAreCheapest(points, otherCents, cents, assign, dim);
    NearestIsCheapest(points, cents, assign, otherAssign, dim);
  }

  // ---- The whole run ----

  /** Means of the same assignment are the same place. */
  lemma MeansAgree(points: seq<Pt>, a: seq<Pt>, b: seq<Pt>, assign: seq<nat>, dim: nat)
    requires |assign| == |points| && Uniform(points, dim) && Uniform(a, dim) && Uniform(b, dim)
    requires AtMeans(points, a, assign, dim) && AtMeans(points, b, assign, dim) && EmptyKept(a, b, assign)
    ensures a == b
  {
    hide Count, Sum;
    forall c | 0 <= c < |a| ensures a[c] == b[c] {
      if Count(assign, c) > 0 {
        forall d | 0 <= d < dim ensures a[c][d] == b[c][d] {
          Cancel(Count(assign, c), a[c][d], b[c][d]);
        }
      }
    }
  }

  lemma Cancel(n: nat, x: real, y: real)
    requires n > 0 && n as real * x == n as real * y
    ensures x == y
  {
  }

  /** One iteration: the centroids it started from and the assignment it made. */
  datatype Round = Round(cents: seq<Pt>, assign: seq<nat>)

  /** Points go to a nearest centroid, at cost x, and the centroids then move to the means. */
  ghost predicate Moves(points: seq<Pt>, dim: nat, r: Round, x: real, next: seq<Pt>) {
    && Uniform(points, dim) && Uniform(r.cents, dim) && Uniform(next, dim) && |next| == |r.cents|
    && |r.assign| == |points| && Assigned(r.assign, |r.cents|)
    && AllNearest(points, r.cents, r.assign, dim) && x == Cost(points, r.cents, r.assign, dim)
    && AtMeans(points, next, r.assign, dim) && EmptyKept(r.cents, next, r.assign)
  }

  /** Where round i ends: where the next one starts, or at cents. */
  function EndOf(rounds: seq<Round>, i: nat, cents: seq<Pt>): seq<Pt> {
    if i + 1 < |rounds| then rounds[i + 1].cents else cents
  }

  /** Every round starts where the one before it ended, the last one ending at cents. */
  ghost predicate Rounds(points: seq<Pt>, dim: nat, rounds: seq<Round>, costs: seq<real>, cents: seq<Pt>) {
    && |costs| == |rounds|
    && forall i :: 0 <= i < |rounds| ==> Moves(points, dim, rounds[i], costs[i], EndOf(rounds, i, cents))
  }

  lemma RoundsSnoc(points: seq<Pt>, dim: nat, rounds: seq<Round>, costs: seq<real>, r: Round, x: real, next: seq<Pt>)
    requires Rounds(points, dim, rounds, costs, r.cents) && Moves(points, dim, r, x, next)
    ensures Rounds(points, dim, rounds + [r], costs + [x], next)
  {
    hide Moves;
    var longer := rounds + [r];
    forall i | 0 <= i < |longer|
      ensures Moves(points, dim, longer[i], (costs + [x])[i], EndOf(longer, i, next))
    {
      if i < |rounds| { assert EndOf(longer, i, next) == EndOf(rounds, i, r.cents); }
    }
  }

  ghost predicate Falling(costs: seq<real>) {
    forall i, j :: 0 <= i <= j < |costs| ==> costs[j] <= costs[i]
  }

  lemma FallingSnoc(costs: seq<real>, x: real)
    requires Falling(costs) && (costs != [] ==> x <= costs[|costs| - 1])
    ensures Falling(costs + [x])
  {
  }

  /**
   Runs up to iters iterations from init. costs[i] is the total squared distance
   under the nearest assignment of round i: it never rises from round to round,
   and the final cost is no higher than the last of them. If the run stopped
   early, every non-empty centroid is the mean of its points and every point is
   at a nearest centroid.
   */
  method Run(points: seq<Pt>, init: seq<Pt>, iters: nat, dim: nat)
    returns (cents: seq<Pt>, assign: seq<nat>, early: bool, ghost rounds: seq<Round>, ghost costs: seq<real>)
    requires points != [] && init != [] && Uniform(points, dim) && Uniform(init, dim)
    ensures |cents| == |init| && Uniform(cents, dim) && |assign| == |points| && Assigned(assign, |cents|)
    ensures Rounds(points, dim, rounds, costs, cents) && Falling(costs) && |rounds| <= iters
    ensures rounds != [] ==> rounds[0].cents == init && assign == rounds[|rounds| - 1].assign
    ensures rounds != [] ==> Cost(points, cents, assign, dim) <= costs[|costs| - 1]
    ensures rounds == [] <==> iters == 0
    ensures iters > 0 ==> AtMeans(points, cents, assign, dim)
    ensures early ==> AllNearest(points, cents, assign, dim)
    ensures |rounds| < iters ==> early
  {
    hide Cost, AtMeans, EmptyKept, AllNearest, Assigned, Uniform, Rounds, Falling;
    cents, assign, early, rounds, costs := init, seq(|points|, _ => 0), false, [], [];
    AllZero(|points|, |init|);
    NoRounds(points, dim, cents);
    for iter := 0 to iters
      invariant |cents| == |init| && Uniform(cents, dim) && |assign| == |points| && Assigned(assign, |cents|)
      invariant |rounds| == iter == |costs| && Rounds(points, dim, rounds, costs, cents) && Falling(costs)
      invariant iter == 0 ==> cents == init
      invariant iter > 0 ==> rounds[0].cents == init && assign == rounds[iter - 1].assign && AtMeans(points, cents, assign, dim)
      invariant iter > 0 ==> Cost(points, cents, assign, dim) <= costs[iter - 1]
    {
      ghost var before := cents;
      var now, changed := Assign(points, cents, assign, dim);
      NearestIsCheapest(points, cents, now, assign, dim);
      assign := now;
      ghost var x := Cost(points, cents, assign, dim);
      cents := MoveToMeans(points, cents, assign, dim);
      RoundsSnoc(points, dim, rounds, costs, Round(before, assign), x, cents);
      FallingSnoc(costs, x);
      rounds, costs := rounds + [Round(before, assign)], costs + [x];
      if !changed && iter > 0 {
        MeansAgree(points, before, cents, assign, dim);
        early := true;
        return;
      }
    }
  }

  lemma NoRounds(points: seq<Pt>, dim: nat, cents: seq<Pt>)
    ensures Rounds(points, dim, [], [], cents) && Falling([])
  {
  }

  lemma AllZero(n: nat, k: nat)
    requires k > 0
    ensures Assigned(seq(n, _ => 0), k)
  {
  }
}
