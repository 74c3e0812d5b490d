/** Resampling a path by arc length and smoothing it with a bounded offset. */
module CourseGeometry {
  import opened Basics
  import opened Bisect
  import opened PlaneGeometry

  type Path = seq<Point>

  // ----- arc length

  function Cumulative(sqrt: Sqrt, points: Path): (d: seq<real>)
    ensures |d| == if points == [] then 1 else |points|
    ensures d[0] == 0.0
  {
    if |points| <= 1 then [0.0]
    else
      var n := |points| - 1;
      var before := Cumulative(sqrt, points[..n]);
      before + [before[n - 1] + DistanceXY(sqrt, points[n - 1], points[n])]
  }

  method CumulativeDistances(sqrt: Sqrt, points: Path) returns (distances: seq<real>)
    ensures distances == Cumulative(sqrt, points)
  {
    distances := [0.0];
    var i := 1;
    while i < |points|
      invariant i >= 1 && (points == [] ==> distances == [0.0])
      invariant points != [] ==> i <= |points|
      invariant points != [] ==> distances == Cumulative(sqrt, points[..i])
    {
      assert points[..i + 1][..i] == points[..i];
      distances := distances + [distances[|distances| - 1] + DistanceXY(sqrt, points[i - 1], points[i])];
      i := i + 1;
    }
    if points != [] { assert points[..|points|] == points; }
  }

  predicate PositiveSegments(sqrt: Sqrt, points: Path) {
    forall i :: 0 <= i < |points| - 1 ==> DistanceXY(sqrt, points[i], points[i + 1]) > 0.0
  }

  lemma {:induction false} CumulativeSteps(sqrt: Sqrt, points: Path, i: nat)
    requires i + 1 < |points|
    ensures Cumulative(sqrt, points)[i + 1]
         == Cumulative(sqrt, points)[i] + DistanceXY(sqrt, points[i], points[i + 1])
  {
    var n := |points| - 1;
    if i + 1 < n {
      CumulativeSteps(sqrt, points[..n], i);
    }
  }

  lemma {:induction false} CumulativeIncreases(sqrt: Sqrt, points: Path)
    requires PositiveSegments(sqrt, points)
    ensures Increasing(Cumulative(sqrt, points)) && Sorted(Cumulative(sqrt, points))
  {
    if |points| > 1 {
      var n := |points| - 1;
      CumulativeIncreases(sqrt, points[..n]);
      var before := Cumulative(sqrt, points[..n]);
      assert before[n - 1] < Cumulative(sqrt, points)[n];
    }
  }

  /** Arc length of the whole path. */
  function Length(sqrt: Sqrt, points: Path): real {
    var d := Cumulative(sqrt, points);
    d[|d| - 1]
  }

  // ----- interpolation

  function SegmentOf(d: seq<real>, target: real): (index: nat)
    requires |d| >= 2 && Sorted(d)
    ensures index <= |d| - 2
  {
    var index := Right(d, target) - 1;
    if index < 0 then 0 else if index > |d| - 2 then |d| - 2 else index
  }

  function Interpolate(points: Path, d: seq<real>, target: real): Point
    requires |points| == |d| >= 2 && Sorted(d)
  {
    var index := SegmentOf(d, target);
    var ratio := if d[index + 1] <= d[index] then 0.0 else (target - d[index]) / (d[index + 1] - d[index]);
    LerpPoint(points[index], points[index + 1], ratio)
  }

  lemma LerpEnds(p: Point, q: Point)
    ensures LerpPoint(p, q, 0.0) == p && LerpPoint(p, q, 1.0) == q
  {
  }

  /** On a closed segment the interpolation is affine in arc length. */
  lemma OnSegment(points: Path, d: seq<real>, i: nat, s: real)
    requires |points| == |d| && i + 1 < |d| && Increasing(d) && Sorted(d) && d[i] <= s <= d[i + 1]
    ensures Interpolate(points, d, s) == LerpPoint(points[i], points[i + 1], (s - d[i]) / (d[i + 1] - d[i]))
  {
    if s < d[i + 1] || i == |d| - 2 {
      RightUnique(d, s, if s < d[i + 1] then i + 1 else i + 2);
    } else {
      RightUnique(d, s, i + 2);
      UnitRatios(d[i + 1] - d[i]);
      UnitRatios(d[i + 2] - d[i + 1]);
      LerpEnds(points[i], points[i + 1]);
      LerpEnds(points[i + 1], points[i + 2]);
    }
  }

  lemma RatioDifference(s: real, t: real, base: real, length: real)
    requires length > 0.0 && s <= t
    ensures (s - base) / length <= (t - base) / length
    ensures ((t - base) / length - (s - base) / length) * length == t - s
  {
    var u, v := (s - base) / length, (t - base) / length;
    assert u * length == s - base && v * length == t - base;
    assert (v - u) * length == v * length - u * length;
    assert (u - v) * length == u * length - v * length;
    if v < u { Positive(u - v, length); }
  }

  lemma SameSegmentDistance(sqrt: Sqrt, points: Path, i: nat, s: real, t: real)
    requires IsSqrt(sqrt) && PositiveSegments(sqrt, points) && i + 1 < |points|
    requires Cumulative(sqrt, points)[i] <= s <= t <= Cumulative(sqrt, points)[i + 1]
    ensures Sorted(Cumulative(sqrt, points))
    ensures var d := Cumulative(sqrt, points);
            DistanceXY(sqrt, Interpolate(points, d, s), Interpolate(points, d, t)) == t - s
  {
    hide Cumulative, DistanceXY, LerpPoint, Interpolate;
    var d := Cumulative(sqrt, points);
    CumulativeIncreases(sqrt, points);
    CumulativeSteps(sqrt, points, i);
    OnSegment(points, d, i, s);
    OnSegment(points, d, i, t);
    var length := DistanceXY(sqrt, points[i], points[i + 1]);
    assert length == d[i + 1] - d[i];
    RatioDifference(s, t, d[i], length);
    SegmentDistance(sqrt, points[i], points[i + 1], (s - d[i]) / length, (t - d[i]) / length);
  }

  /** Points of the path are never farther apart than the arc between them. */
  lemma {:induction false} ArcBoundsDistance(sqrt: Sqrt, points: Path, i: nat, j: nat, s: real, t: real)
    requires IsSqrt(sqrt) && PositiveSegments(sqrt, points) && i <= j && j + 1 < |points| && s <= t
    requires var d := Cumulative(sqrt, points); d[i] <= s <= d[i + 1] && d[j] <= t <= d[j + 1]
    ensures Sorted(Cumulative(sqrt, points))
    ensures var d := Cumulative(sqrt, points);
            DistanceXY(sqrt, Interpolate(points, d, s), Interpolate(points, d, t)) <= t - s
    decreases j
  {
    CumulativeIncreases(sqrt, points);
    var d := Cumulative(sqrt, points);
    if i == j {
      SameSegmentDistance(sqrt, points, i, s, t);
    } else {
      ArcBoundsDistance(sqrt, points, i, j - 1, s, d[j]);
      SameSegmentDistance(sqrt, points, j, d[j], t);
      Triangle(sqrt, Interpolate(points, d, s), Interpolate(points, d, d[j]), Interpolate(points, d, t));
    }
  }

  lemma SegmentBrackets(d: seq<real>, s: real)
    requires |d| >= 2 && Sorted(d) && d[0] <= s <= d[|d| - 1]
    ensures d[SegmentOf(d, s)] <= s <= d[SegmentOf(d, s) + 1]
  {
  }

  // ----- resampling

  function Multiple(k: int, interval: real): real {
    k as real * interval
  }

  /** `int(total / interval)` for a non-negative quotient. */
  function Steps(total: real, interval: real): int
    requires interval > 0.0
  {
    (total / interval).Floor
  }

  /** Sample positions: multiples of the interval, then the end unless the last one is at it. */
  function Targets(total: real, interval: real): (t: seq<real>)
    requires interval > 0.0 && total >= 0.0
    ensures |t| > 0
  {
    FloorBrackets(total, interval);
    var steps := Steps(total, interval);
    var base := seq(steps + 1, k requires 0 <= k => Multiple(k, interval));
    if total - base[steps] > 0.000001 then base + [total] else base[steps := total]
  }

  lemma FloorBrackets(total: real, interval: real)
    requires interval > 0.0 && total >= 0.0
    ensures Steps(total, interval) >= 0
    ensures 0.0 <= total - Multiple(Steps(total, interval), interval) < interval
  {
    var q := total / interval;
    QuotientTimes(total, interval);
    ScaleBrackets(total, q, q.Floor, interval);
  }

  lemma QuotientTimes(x: real, y: real)
    requires y > 0.0 && x >= 0.0
    ensures x / y * y == x && x / y >= 0.0
  {
    var q := x / y;
    assert (-q) * y == -(q * y);
    if q < 0.0 { Positive(-q, y); }
  }

  lemma ScaleBrackets(total: real, q: real, k: int, interval: real)
    requires interval > 0.0 && k as real <= q < k as real + 1.0 && q * interval == total
    ensures 0.0 <= total - Multiple(k, interval) < interval
  {
    var low, high := q - k as real, k as real + 1.0 - q;
    NonNegativeProduct(low, interval);
    Positive(high, interval);
    assert low * interval == q * interval - k as real * interval;
    calc {
      high * interval;
      (k as real + 1.0) * interval - q * interval;
      k as real * interval + interval - total;
    }
  }

  /** What the sample positions guarantee: they run from 0 to the end, never more than a step apart. */
  lemma TargetsSpread(total: real, interval: real)
    requires interval > 0.0 && total >= 0.0
    ensures var t := Targets(total, interval);
            && t[|t| - 1] == total
            && (forall k :: 0 <= k < |t| ==> 0.0 <= t[k] <= total)
            && (forall k :: 0 <= k < |t| - 1 ==> 0.0 <= t[k + 1] - t[k] <= interval + 0.000001)
            && (t[0] == 0.0 <==> total > 0.000001 || total >= interval || total == 0.0)
            && (t[0] != 0.0 ==> t == [total])
  {
    hide Multiple, Steps;
    FloorBrackets(total, interval);
    var steps := Steps(total, interval);
    forall k | 0 <= k <= steps ensures 0.0 <= Multiple(k, interval) <= Multiple(steps, interval) {
      MultiplesOrder(k, steps, interval);
    }
    forall k | 0 <= k < steps ensures Multiple(k + 1, interval) - Multiple(k, interval) == interval {
      MultiplesStep(k, interval);
    }
    MultiplesStep(0, interval);
    if steps >= 1 { MultiplesOrder(1, steps, interval); }
  }

  lemma MultiplesOrder(k: int, m: int, interval: real)
    requires 0 <= k <= m && interval > 0.0
    ensures 0.0 <= Multiple(k, interval) <= Multiple(m, interval)
  {
    NonNegativeProduct(k as real, interval);
    NonNegativeProduct(m as real - k as real, interval);
    assert (m as real - k as real) * interval == m as real * interval - k as real * interval;
  }

  lemma MultiplesStep(k: int, interval: real)
    ensures Multiple(k + 1, interval) - Multiple(k, interval) == interval && Multiple(0, interval) == 0.0
  {
    assert (k + 1) as real == k as real + 1.0;
    assert (k as real + 1.0) * interval == k as real * interval + interval;
  }

  function Resample(sqrt: Sqrt, points: Path, interval: real): Option<Path>
    requires |points| >= 2 && IsSqrt(sqrt) && PositiveSegments(sqrt, points)
  {
    if interval <= 0.0 then None
    else
      var d := Cumulative(sqrt, points);
      CumulativeIncreases(sqrt, points);
      var targets := Targets(d[|d| - 1], interval);
      Some(seq(|targets|, k requires 0 <= k < |targets| => Interpolate(points, d, targets[k])))
  }

  /** Builds the position list, adjusts its end, then interpolates; refuses a non-positive interval. */
  method ResamplePath(sqrt: Sqrt, points: Path, interval: real) returns (r: Option<Path>)
    requires |points| >= 2 && IsSqrt(sqrt) && PositiveSegments(sqrt, points)
    ensures r == Resample(sqrt, points, interval)
  {
    hide Interpolate, Cumulative, Targets;
    if interval <= 0.0 {
      return None;
    }
    CumulativeIncreases(sqrt, points);
    var distances := CumulativeDistances(sqrt, points);
    var total := distances[|distances| - 1];
    var targets := SampleTargets(total, interval);
    var samples := [];
    for k := 0 to |targets|
      invariant samples == seq(k, j requires 0 <= j < |targets| => Interpolate(points, distances, targets[j]))
    {
      samples := samples + [Interpolate(points, distances, targets[k])];
    }
    r := Some(samples);
  }

  method SampleTargets(total: real, interval: real) returns (targets: seq<real>)
    requires interval > 0.0 && total >= 0.0
    ensures targets == Targets(total, interval)
  {
    hide Multiple;
    FloorBrackets(total, interval);
    var steps := Steps(total, interval);
    targets := [];
    for index := 0 to steps + 1
      invariant targets == seq(index, k requires 0 <= k => Multiple(k, interval))
    {
      targets := targets + [Multiple(index, interval)];
    }
    if total - targets[|targets| - 1] > 0.000001 {
      targets := targets + [total];
    } else {
      targets := targets[|targets| - 1 := total];
    }
  }

  /** Consecutive samples are at most one interval (and the end adjustment) apart. */
  lemma ResampleSpacing(sqrt: Sqrt, points: Path, interval: real, k: nat)
    requires |points| >= 2 && IsSqrt(sqrt) && PositiveSegments(sqrt, points) && interval > 0.0
    requires k + 1 < |Resample(sqrt, points, interval).value|
    ensures var r := Resample(sqrt, points, interval).value;
            DistanceXY(sqrt, r[k], r[k + 1]) <= interval + 0.000001
  {
    var d := Cumulative(sqrt, points);
    CumulativeIncreases(sqrt, points);
    var t := Targets(d[|d| - 1], interval);
    TargetsSpread(d[|d| - 1], interval);
    SegmentBrackets(d, t[k]);
    SegmentBrackets(d, t[k + 1]);
    SegmentsOrdered(d, t[k], t[k + 1]);
    ArcBoundsDistance(sqrt, points, SegmentOf(d, t[k]), SegmentOf(d, t[k + 1]), t[k], t[k + 1]);
  }

  lemma SegmentsOrdered(d: seq<real>, s: real, t: real)
    requires |d| >= 2 && Sorted(d) && s <= t
    ensures SegmentOf(d, s) <= SegmentOf(d, t)
  {
    RightMonotone(d, s, t);
  }

  /**
    * The last sample is the last point. The first sample is the first point exactly when the
    * path is longer than the end adjustment, or at least one interval long, or closed; any
    * other path collapses to its last point alone.
    */
  lemma ResampleEndpoints(sqrt: Sqrt, points: Path, interval: real)
    requires |points| >= 2 && IsSqrt(sqrt) && PositiveSegments(sqrt, points) && interval > 0.0
    ensures var r := Resample(sqrt, points, interval).value;
            && r != [] && r[|r| - 1] == points[|points| - 1]
            && (r[0] == points[0] <==>
                  Length(sqrt, points) > 0.000001 || Length(sqrt, points) >= interval || points[0] == points[|points| - 1])
            && (r[0] != points[0] ==> r == [points[|points| - 1]])
  {
    hide Cumulative, Interpolate, LerpPoint, Multiple, Steps;
    var d := Cumulative(sqrt, points);
    CumulativeIncreases(sqrt, points);
    PathEnds(points, d);
    TargetsSpread(d[|d| - 1], interval);
  }

  lemma PathEnds(points: Path, d: seq<real>)
    requires |points| == |d| >= 2 && Increasing(d) && Sorted(d) && d[0] == 0.0
    ensures Interpolate(points, d, 0.0) == points[0]
    ensures Interpolate(points, d, d[|d| - 1]) == points[|points| - 1]
  {
    hide LerpPoint, Interpolate;
    var n := |d|;
    OnSegment(points, d, 0, 0.0);
    OnSegment(points, d, n - 2, d[n - 1]);
    UnitRatios(d[1]);
    UnitRatios(d[n - 1] - d[n - 2]);
    LerpEnds(points[0], points[1]);
    LerpEnds(points[n - 2], points[n - 1]);
  }

  lemma UnitRatios(x: real)
    requires x > 0.0
    ensures 0.0 / x == 0.0 && x / x == 1.0
  {
  }
}
