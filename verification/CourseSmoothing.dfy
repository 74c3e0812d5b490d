/** The moving average with a bounded offset, and the spacing of a resampled, smoothed course. */
module CourseSmoothing {
  import opened Basics
  import opened PlaneGeometry
  import opened CourseGeometry

  const ORIGIN := Point(0.0, 0.0, 0.0)

  function Add(p: Point, q: Point): Point {
    Point(p.x + q.x, p.y + q.y, p.z + q.z)
  }

  function Scale(p: Point, k: real): Point {
    Point(k * p.x, k * p.y, k * p.z)
  }

  function Minus(p: Point, q: Point): Point {
    Point(p.x - q.x, p.y - q.y, p.z - q.z)
  }

  function WindowSum(points: Path, low: nat, high: nat): Point
    requires low <= high <= |points|
  {
    if low == high then ORIGIN else Add(WindowSum(points, low, high - 1), points[high - 1])
  }

  function Average(points: Path, low: nat, high: nat): Point
    requires low < high <= |points|
  {
    var sum, n := WindowSum(points, low, high), (high - low) as real;
    Point(sum.x / n, sum.y / n, sum.z / n)
  }

  function PullScale(magnitude: real, maxOffset: real): real
    requires maxOffset > 0.0
  {
    if magnitude <= maxOffset then 1.0 else maxOffset / magnitude
  }

  /** A point moved towards `average` by at most `maxOffset`. */
  function Pull(sqrt: Sqrt, p: Point, average: Point, maxOffset: real): Point
    requires maxOffset > 0.0
  {
    Add(p, Scale(Minus(average, p), PullScale(Distance3(sqrt, average, p), maxOffset)))
  }

  predicate Smooths(points: Path, radius: int, maxOffset: real) {
    radius > 0 && maxOffset > 0.0 && |points| >= 2 * radius + 1
  }

  function SmoothAt(sqrt: Sqrt, points: Path, radius: int, maxOffset: real, i: nat): Point
    requires Smooths(points, radius, maxOffset) && i < |points|
  {
    if radius <= i < |points| - radius
    then Pull(sqrt, points[i], Average(points, i - radius, i + radius + 1), maxOffset)
    else points[i]
  }

  function Smooth(sqrt: Sqrt, points: Path, radius: int, maxOffset: real): (r: Path)
    ensures |r| == |points|
  {
    if !Smooths(points, radius, maxOffset) then points
    else seq(|points|, i requires 0 <= i < |points| => SmoothAt(sqrt, points, radius, maxOffset, i))
  }

  /** Overwrites a copy; every average is taken over the unsmoothed points. */
  method BoundedSmooth(sqrt: Sqrt, points: Path, radius: int, maxOffset: real) returns (output: Path)
    ensures output == Smooth(sqrt, points, radius, maxOffset)
  {
    hide Pull, Average;
    output := points;
    if radius <= 0 || maxOffset <= 0.0 || |points| < 2 * radius + 1 {
      return;
    }
    ghost var goal := Smooth(sqrt, points, radius, maxOffset);
    for index := radius to |points| - radius
      invariant |output| == |points|
      invariant forall k :: 0 <= k < index ==> output[k] == goal[k]
      invariant forall k :: index <= k < |points| ==> output[k] == points[k]
    {
      var average := Average(points, index - radius, index + radius + 1);
      output := output[index := Pull(sqrt, points[index], average, maxOffset)];
    }
  }

  // ----- no sample moves farther than allowed

  lemma ScaledSquare3(p: Point, average: Point, k: real)
    ensures Square3(p, Add(p, Scale(Minus(average, p), k))) == (k * k) * Square3(average, p)
  {
    OffsetSquare(p.x, average.x, k);
    OffsetSquare(p.y, average.y, k);
    OffsetSquare(p.z, average.z, k);
  }

  lemma OffsetSquare(p: real, a: real, k: real)
    ensures (p - (p + k * (a - p))) * (p - (p + k * (a - p))) == (k * k) * ((a - p) * (a - p))
  {
    var d := k * (a - p);
    assert p - (p + d) == -d && (-d) * (-d) == d * d;
  }

  lemma PullScaleBounds(magnitude: real, maxOffset: real)
    requires maxOffset > 0.0 && magnitude >= 0.0
    ensures PullScale(magnitude, maxOffset) >= 0.0
    ensures PullScale(magnitude, maxOffset) * magnitude <= maxOffset
  {
    if magnitude > maxOffset {
      QuotientTimes(maxOffset, magnitude);
    }
  }

  lemma PullBounded(sqrt: Sqrt, p: Point, average: Point, maxOffset: real)
    requires IsSqrt(sqrt) && maxOffset > 0.0
    ensures Distance3(sqrt, p, Pull(sqrt, p, average, maxOffset)) <= maxOffset
  {
    var magnitude := Distance3(sqrt, average, p);
    Distance3Squared(sqrt, average, p);
    PullScaleBounds(magnitude, maxOffset);
    var scale := PullScale(magnitude, maxOffset);
    ScaledSquare3(p, average, scale);
    hide Add, Scale, Square3, PullScale;
    RootOfScaled(sqrt, Square3(average, p), Square3(p, Pull(sqrt, p, average, maxOffset)), scale, magnitude, maxOffset);
  }

  lemma Distance3Squared(sqrt: Sqrt, p: Point, q: Point)
    requires IsSqrt(sqrt)
    ensures var d := Distance3(sqrt, p, q); d >= 0.0 && d * d == Square3(p, q)
  {
    SquareNonNegative(p.x - q.x);
    SquareNonNegative(p.y - q.y);
    SquareNonNegative(p.z - q.z);
  }

  lemma RootOfScaled(sqrt: Sqrt, x: real, y: real, k: real, r: real, bound: real)
    requires IsSqrt(sqrt) && k >= 0.0 && r >= 0.0 && r * r == x && y == (k * k) * x && k * r <= bound
    ensures sqrt(y) <= bound
  {
    NonNegativeProduct(k, r);
    ProductSquare(k, r);
    SqrtUnique(sqrt, y, k * r);
  }

  /** Each sample stays within the offset bound of where it was; the ends stay put. */
  lemma SmoothMovesLittle(sqrt: Sqrt, points: Path, radius: int, maxOffset: real, i: nat)
    requires IsSqrt(sqrt) && i < |points|
    ensures var r := Smooth(sqrt, points, radius, maxOffset);
            && Distance3(sqrt, points[i], r[i]) <= Max(0.0, maxOffset)
            && (i == 0 || i == |points| - 1 ==> r[i] == points[i])
  {
    hide Pull, Average, Distance3;
    ZeroDistance(sqrt, points[i]);
    if Smooths(points, radius, maxOffset) && radius <= i < |points| - radius {
      PullBounded(sqrt, points[i], Average(points, i - radius, i + radius + 1), maxOffset);
    }
  }

  // ----- an evenly sampled straight stretch is a fixed point

  predicate Straight(points: Path, low: nat, high: nat, origin: Point, step: Point)
    requires high <= |points|
  {
    forall k :: low <= k < high ==> points[k] == Add(origin, Scale(step, k as real))
  }

  /** Sum of the indices `low..high`, as a real. */
  function IndexSum(low: nat, high: nat): real
    requires low <= high
  {
    if low == high then 0.0 else IndexSum(low, high - 1) + (high - 1) as real
  }

  lemma {:induction false} IndexSumClosed(low: nat, high: nat)
    requires low <= high
    ensures 2.0 * IndexSum(low, high) == (high - low) as real * (high as real + low as real - 1.0)
  {
    if low < high {
      IndexSumClosed(low, high - 1);
      var n, m := (high - 1 - low) as real, (high - 1) as real + low as real - 1.0;
      assert (n + 1.0) * (m + 1.0) == n * m + n + m + 1.0;
    }
  }

  lemma IndexSumStep(low: nat, high: nat)
    requires low <= high
    ensures low == high ==> IndexSum(low, high) == 0.0
    ensures low < high ==> IndexSum(low, high) == IndexSum(low, high - 1) + (high - 1) as real
  {
  }

  lemma {:induction false} StraightSum(points: Path, low: nat, high: nat, origin: Point, step: Point)
    requires low <= high <= |points| && Straight(points, low, high, origin, step)
    ensures WindowSum(points, low, high)
         == Add(Scale(origin, (high - low) as real), Scale(step, IndexSum(low, high)))
  {
    hide IndexSum;
    IndexSumStep(low, high);
    if low < high {
      StraightSum(points, low, high - 1, origin, step);
      var n, s, k := (high - 1 - low) as real, IndexSum(low, high - 1), (high - 1) as real;
      assert points[high - 1] == Add(origin, Scale(step, k));
      VectorSum(origin, step, n, s, k);
      hide Add, Scale;
    } else {
      ZeroVector(origin, step);
    }
  }

  lemma ZeroVector(a: Point, b: Point)
    ensures Add(Scale(a, 0.0), Scale(b, 0.0)) == ORIGIN
  {
  }

  lemma VectorSum(a: Point, b: Point, n: real, s: real, k: real)
    ensures Add(Add(Scale(a, n), Scale(b, s)), Add(a, Scale(b, k))) == Add(Scale(a, n + 1.0), Scale(b, s + k))
  {
    AxisSum(a.x, b.x, n, s, k);
    AxisSum(a.y, b.y, n, s, k);
    AxisSum(a.z, b.z, n, s, k);
  }

  lemma AxisSum(a: real, b: real, n: real, s: real, k: real)
    ensures (n * a + s * b) + (a + k * b) == (n + 1.0) * a + (s + k) * b
  {
  }

  lemma StraightAverage(points: Path, low: nat, high: nat, i: nat, origin: Point, step: Point)
    requires low < high <= |points| && low + high == 2 * i + 1
    requires Straight(points, low, high, origin, step)
    ensures Average(points, low, high) == Add(origin, Scale(step, i as real))
  {
    var n := (high - low) as real;
    StraightSum(points, low, high, origin, step);
    IndexSumClosed(low, high);
    assert high as real + low as real - 1.0 == 2.0 * i as real;
    var s := IndexSum(low, high);
    HalfProduct(s, n, i as real);
    AverageOfSum(WindowSum(points, low, high), origin, step, n, i as real, s);
    hide Add, Scale, WindowSum, IndexSum;
  }

  lemma AverageOfSum(sum: Point, origin: Point, step: Point, n: real, i: real, s: real)
    requires n > 0.0 && s == n * i && sum == Add(Scale(origin, n), Scale(step, s))
    ensures Point(sum.x / n, sum.y / n, sum.z / n) == Add(origin, Scale(step, i))
  {
    AxisAverage(sum.x, origin.x, step.x, n, i, s);
    AxisAverage(sum.y, origin.y, step.y, n, i, s);
    AxisAverage(sum.z, origin.z, step.z, n, i, s);
  }

  lemma HalfProduct(s: real, n: real, i: real)
    requires 2.0 * s == n * (2.0 * i)
    ensures s == n * i
  {
    assert n * (2.0 * i) == 2.0 * (n * i);
  }

  lemma PullToItself(sqrt: Sqrt, p: Point, maxOffset: real)
    requires maxOffset > 0.0
    ensures Pull(sqrt, p, p, maxOffset) == p
  {
    assert Scale(Minus(p, p), PullScale(Distance3(sqrt, p, p), maxOffset)) == ORIGIN;
  }

  lemma StraightStretchIsFixed(sqrt: Sqrt, points: Path, radius: int, maxOffset: real, i: nat, origin: Point, step: Point)
    requires Smooths(points, radius, maxOffset) && radius <= i < |points| - radius
    requires Straight(points, i - radius, i + radius + 1, origin, step)
    ensures Smooth(sqrt, points, radius, maxOffset)[i] == points[i]
  {
    hide Pull, Average;
    StraightAverage(points, i - radius, i + radius + 1, i, origin, step);
    PullToItself(sqrt, points[i], maxOffset);
  }

  lemma AxisAverage(v: real, a: real, b: real, n: real, i: real, s: real)
    requires n > 0.0 && s == n * i && v == n * a + s * b
    ensures v / n == a + i * b
  {
    assert s * b == n * (i * b);
    assert v == n * (a + i * b);
  }

  // ----- the course

  function Course(sqrt: Sqrt, raw: Path, interval: real, radius: int, maxOffset: real): Option<Path>
    requires |raw| >= 2 && IsSqrt(sqrt) && PositiveSegments(sqrt, raw)
  {
    match Resample(sqrt, raw, interval)
    case None => None
    case Some(samples) => Some(Smooth(sqrt, samples, radius, maxOffset))
  }

  /** Consecutive course points are at most interval + 2 max_offset + 1e-6 apart. */
  lemma CourseSpacing(sqrt: Sqrt, raw: Path, interval: real, radius: int, maxOffset: real, k: nat)
    requires |raw| >= 2 && IsSqrt(sqrt) && PositiveSegments(sqrt, raw) && interval > 0.0
    requires k + 1 < |Course(sqrt, raw, interval, radius, maxOffset).value|
    ensures var c := Course(sqrt, raw, interval, radius, maxOffset).value;
            DistanceXY(sqrt, c[k], c[k + 1]) <= interval + 2.0 * Max(0.0, maxOffset) + 0.000001
  {
    hide DistanceXY, Distance3, Smooth;
    var r := Resample(sqrt, raw, interval).value;
    var c := Smooth(sqrt, r, radius, maxOffset);
    ResampleSpacing(sqrt, raw, interval, k);
    SmoothMovesLittle(sqrt, r, radius, maxOffset, k);
    SmoothMovesLittle(sqrt, r, radius, maxOffset, k + 1);
    MovedEnds(sqrt, r[k], r[k + 1], c[k], c[k + 1]);
  }

  /** Moving both ends of a segment lengthens it by at most the two moves. */
  lemma MovedEnds(sqrt: Sqrt, p: Point, q: Point, moved: Point, other: Point)
    requires IsSqrt(sqrt)
    ensures DistanceXY(sqrt, moved, other) <= DistanceXY(sqrt, p, q) + Distance3(sqrt, p, moved) + Distance3(sqrt, q, other)
  {
    PlaneBelowSpace(sqrt, p, moved);
    PlaneBelowSpace(sqrt, q, other);
    DistanceSymmetric(sqrt, p, moved);
    Triangle(sqrt, moved, p, q);
    Triangle(sqrt, moved, q, other);
  }

  /** `spacing_bounded` of the course validation. */
  lemma SpacingCheckPasses(sqrt: Sqrt, raw: Path, interval: real, radius: int, maxOffset: real, c: Path, arc: seq<real>)
    requires |raw| >= 2 && IsSqrt(sqrt) && PositiveSegments(sqrt, raw) && interval > 0.0
    requires Some(c) == Course(sqrt, raw, interval, radius, maxOffset) && c != [] && arc == Cumulative(sqrt, c)
    requires 2.0 * Max(0.0, maxOffset) + 0.000001 <= 0.25 * interval
    ensures |arc| == |c| && forall k :: 0 <= k < |arc| - 1 ==> arc[k + 1] - arc[k] <= interval * 1.25
  {
    forall k | 0 <= k < |arc| - 1 ensures arc[k + 1] - arc[k] <= interval * 1.25 {
      CumulativeSteps(sqrt, c, k);
      CourseSpacing(sqrt, raw, interval, radius, maxOffset, k);
    }
  }

  /** Both ends of the raw path are ends of the course, unless the path is degenerate. */
  lemma CourseEndpoints(sqrt: Sqrt, raw: Path, interval: real, radius: int, maxOffset: real)
    requires |raw| >= 2 && IsSqrt(sqrt) && PositiveSegments(sqrt, raw) && interval > 0.0
    ensures var c := Course(sqrt, raw, interval, radius, maxOffset).value;
            && c != [] && c[|c| - 1] == raw[|raw| - 1]
            && (c[0] == raw[0] <==>
                  Length(sqrt, raw) > 0.000001 || Length(sqrt, raw) >= interval || raw[0] == raw[|raw| - 1])
  {
    hide Pull, Average, Interpolate, Cumulative;
    var r := Resample(sqrt, raw, interval).value;
    ResampleEndpoints(sqrt, raw, interval);
    SmoothMovesLittle(sqrt, r, radius, maxOffset, 0);
    SmoothMovesLittle(sqrt, r, radius, maxOffset, |r| - 1);
  }
}
