/**
  * A course that fails its own lateral check: two straight arms that meet in a bend just too
  * slight to be capped.
  */
module CourseBend {
  import opened Basics
  import opened Bisect
  import opened PlaneGeometry
  import opened CourseGeometry
  import opened CourseSmoothing
  import opened SpeedSweep
  import opened CourseProfile

  /** The rise per step that makes the bend's curvature the largest one not capped. */
  function SlightRise(interval: real): real {
    interval * interval * 0.5 * STRAIGHT
  }

  /** Arms of `arm` steps of `interval`, each rising or falling by `rise` over `run`. */
  datatype Bend = Bend(interval: real, run: real, rise: real, arm: nat) {
    predicate Valid() {
      && 0.00000001 <= interval <= 1000000000.0 && arm > 0
      && rise == SlightRise(interval)
      && run >= 0.0 && run * run + rise * rise == interval * interval
    }
  }

  function At(b: Bend, i: nat): Point {
    Point(i as real * b.run, (if i <= b.arm then i else 2 * b.arm - i) as real * b.rise, 0.0)
  }

  function Bent(b: Bend): (path: Path)
    ensures |path| == 2 * b.arm + 1
  {
    seq(2 * b.arm + 1, i requires 0 <= i < 2 * b.arm + 1 => At(b, i))
  }

  // ----- its segments and curvatures

  lemma NextPoint(b: Bend, i: nat)
    requires i < 2 * b.arm
    ensures At(b, i + 1).x - At(b, i).x == b.run
    ensures At(b, i + 1).y - At(b, i).y == if i < b.arm then b.rise else -b.rise
  {
    assert (i + 1) as real * b.run == i as real * b.run + b.run;
    if i < b.arm {
      assert (i + 1) as real * b.rise == i as real * b.rise + b.rise;
    } else {
      var k := 2 * b.arm - i - 1;
      assert (k + 1) as real * b.rise == k as real * b.rise + b.rise;
    }
  }

  lemma StepLength(sqrt: Sqrt, p: Point, q: Point, run: real, rise: real, length: real)
    requires IsSqrt(sqrt) && length >= 0.0 && run * run + rise * rise == length * length
    requires q.x - p.x == run && (q.y - p.y == rise || q.y - p.y == -rise)
    ensures DistanceXY(sqrt, p, q) == length
  {
    OppositeSquare(p.x, q.x);
    OppositeSquare(p.y, q.y);
    NegatedSquare(rise);
    SqrtUnique(sqrt, SquareXY(p, q), length);
  }

  lemma SegmentLength(sqrt: Sqrt, b: Bend, i: nat)
    requires IsSqrt(sqrt) && b.Valid() && i < 2 * b.arm
    ensures DistanceXY(sqrt, Bent(b)[i], Bent(b)[i + 1]) == b.interval
  {
    NextPoint(b, i);
    StepLength(sqrt, At(b, i), At(b, i + 1), b.run, b.rise, b.interval);
  }

  /** The chord over the bend is long enough for the curvature to be taken. */
  lemma RunIsLong(b: Bend)
    requires b.Valid()
    ensures 2.0 * b.run >= b.interval
  {
    var half := 0.5 * b.interval;
    RiseIsSmall(b.interval);
    NonNegativeProduct(half - b.rise, half + b.rise);
    DifferenceOfSquares(half, b.rise);
    HalfSquare(b.interval);
    NonNegativeProduct(half, half);
    SquareOrder(half, b.run);
  }

  lemma DifferenceOfSquares(x: real, y: real)
    ensures (x - y) * (x + y) == x * x - y * y
  {
  }

  lemma HalfSquare(x: real)
    ensures x * x == 4.0 * ((0.5 * x) * (0.5 * x))
  {
  }

  lemma RiseIsSmall(interval: real)
    requires 0.0 <= interval <= 1000000000.0
    ensures 0.0 <= SlightRise(interval) <= 0.5 * interval
  {
    NonNegativeProduct(interval, interval);
    NonNegativeProduct(interval, 1000000000.0 - interval);
    assert interval * (1000000000.0 - interval) == 1000000000.0 * interval - interval * interval;
  }

  lemma CrossOf(u: real, v: real, w: real)
    ensures u * (v + w) - v * (u + u) == u * (w - v)
  {
  }

  lemma StraightCurvature(sqrt: Sqrt, b: Bend, i: nat)
    requires IsSqrt(sqrt) && b.Valid() && i < |Bent(b)| && i != b.arm
    ensures CurvatureAt(sqrt, Bent(b), i) == 0.0
  {
    hide At, Cross;
    if 0 < i < 2 * b.arm {
      NextPoint(b, i - 1);
      NextPoint(b, i);
      StraightCross(At(b, i - 1), At(b, i), At(b, i + 1));
      assert CurvatureAt(sqrt, Bent(b), i) == CurvatureOf(sqrt, At(b, i - 1), At(b, i), At(b, i + 1));
    }
  }

  lemma StraightCross(p: Point, c: Point, f: Point)
    requires f.x - c.x == c.x - p.x && f.y - c.y == c.y - p.y
    ensures Cross(p, c, f) == 0.0
  {
    var u, v := c.x - p.x, c.y - p.y;
    assert f.y - p.y == v + v && f.x - p.x == u + u;
    CrossOf(u, v, v);
  }

  lemma CurvatureFrom(sqrt: Sqrt, p: Point, c: Point, f: Point, arm: real, chord: real, curvature: real)
    requires DistanceXY(sqrt, p, c) == arm && DistanceXY(sqrt, c, f) == arm && DistanceXY(sqrt, p, f) == chord
    requires arm >= 0.00000001 && chord >= 0.00000001 && 2.0 * Cross(p, c, f) == curvature * (arm * arm * chord)
    ensures CurvatureOf(sqrt, p, c, f) == curvature
  {
    hide DistanceXY, Cross;
    Positive(arm, arm);
    Positive(arm * arm, chord);
    Cancel(curvature, arm * arm * chord, 2.0 * Cross(p, c, f));
  }

  lemma Cancel(k: real, x: real, product: real)
    requires x > 0.0 && product == k * x
    ensures product / x == k
  {
    var r := product / x;
    assert r * x == k * x;
    assert (r - k) * x == r * x - k * x;
    assert (k - r) * x == k * x - r * x;
    if r > k { Positive(r - k, x); }
    if r < k { Positive(k - r, x); }
  }

  /** Around the bend: how the points lie, and how far apart they are. */
  lemma AroundBend(sqrt: Sqrt, b: Bend)
    requires IsSqrt(sqrt) && b.Valid()
    ensures var p, c, f := At(b, b.arm - 1), At(b, b.arm), At(b, b.arm + 1);
            && DistanceXY(sqrt, p, c) == b.interval && DistanceXY(sqrt, c, f) == b.interval
            && DistanceXY(sqrt, p, f) == 2.0 * b.run && Cross(p, c, f) == -(2.0 * (b.run * b.rise))
  {
    var n := b.arm;
    NextPoint(b, n - 1);
    NextPoint(b, n);
    var p, c, f := At(b, n - 1), At(b, n), At(b, n + 1);
    hide At;
    StepLength(sqrt, p, c, b.run, b.rise, b.interval);
    StepLength(sqrt, c, f, b.run, b.rise, b.interval);
    StepLength(sqrt, p, f, 2.0 * b.run, 0.0, 2.0 * b.run);
    CrossOf(b.run, b.rise, -b.rise);
  }

  /** The bend has the largest curvature that is not capped. */
  lemma BendCurvature(sqrt: Sqrt, b: Bend)
    requires IsSqrt(sqrt) && b.Valid()
    ensures Abs(CurvatureAt(sqrt, Bent(b), b.arm)) == STRAIGHT
  {
    hide At, DistanceXY, Cross;
    var p, c, f := At(b, b.arm - 1), At(b, b.arm), At(b, b.arm + 1);
    AroundBend(sqrt, b);
    RunIsLong(b);
    RunTimesRise(b.run, b.interval);
    CurvatureFrom(sqrt, p, c, f, b.interval, 2.0 * b.run, -STRAIGHT);
    assert CurvatureAt(sqrt, Bent(b), b.arm) == CurvatureOf(sqrt, p, c, f);
  }

  lemma RunTimesRise(run: real, interval: real)
    ensures 2.0 * -(2.0 * (run * SlightRise(interval))) == -STRAIGHT * (interval * interval * (2.0 * run))
  {
    var square := interval * interval;
    assert run * (square * 0.5 * STRAIGHT) == 0.5 * STRAIGHT * (square * run);
    assert square * (2.0 * run) == 2.0 * (square * run);
  }

  // ----- resampling leaves it alone

  lemma {:induction false} BentArc(sqrt: Sqrt, b: Bend, path: Path)
    requires IsSqrt(sqrt) && b.Valid() && path != [] && path <= Bent(b)
    ensures forall i :: 0 <= i < |path| ==> Cumulative(sqrt, path)[i] == Multiple(i, b.interval)
  {
    hide DistanceXY, Multiple, Bent;
    var n := |path| - 1;
    MultiplesStep(0, b.interval);
    if n > 0 {
      BentArc(sqrt, b, path[..n]);
      SegmentLength(sqrt, b, n - 1);
      assert path[n - 1] == Bent(b)[n - 1] && path[n] == Bent(b)[n];
      MultiplesStep(n - 1, b.interval);
    }
  }

  lemma WholeSteps(n: nat, interval: real)
    requires interval > 0.0
    ensures Multiple(n, interval) >= 0.0 && Steps(Multiple(n, interval), interval) == n
  {
    var total := Multiple(n, interval);
    MultiplesOrder(n, n, interval);
    FloorBrackets(total, interval);
    var k := Steps(total, interval);
    hide Steps, Multiple;
    MultiplesStep(n, interval);
    MultiplesStep(k, interval);
    if k < n { MultiplesOrder(k + 1, n, interval); }
    if n < k { MultiplesOrder(n + 1, k, interval); }
  }

  lemma WholeTargets(n: nat, interval: real)
    requires interval > 0.0
    ensures Multiple(n, interval) >= 0.0
    ensures var t := Targets(Multiple(n, interval), interval);
            |t| == n + 1 && forall k :: 0 <= k <= n ==> t[k] == Multiple(k, interval)
  {
    hide Multiple;
    WholeSteps(n, interval);
  }

  /** The samples of the bend are its points. */
  lemma BentIsSampled(sqrt: Sqrt, b: Bend)
    requires IsSqrt(sqrt) && b.Valid()
    ensures PositiveSegments(sqrt, Bent(b)) && Resample(sqrt, Bent(b), b.interval) == Some(Bent(b))
  {
    hide Multiple, DistanceXY, Interpolate, Targets, At, Cumulative;
    var path := Bent(b);
    forall i | 0 <= i < |path| - 1 ensures DistanceXY(sqrt, path[i], path[i + 1]) > 0.0 { SegmentLength(sqrt, b, i); }
    assert PositiveSegments(sqrt, path);
    var d := Cumulative(sqrt, path);
    CumulativeIncreases(sqrt, path);
    BentArc(sqrt, b, path);
    var n := 2 * b.arm;
    WholeTargets(n, b.interval);
    var targets := Targets(d[n], b.interval);
    forall k | 0 <= k <= n ensures Interpolate(path, d, targets[k]) == path[k] { SampledAt(path, d, k); }
    assert Resample(sqrt, path, b.interval).value == path;
  }

  /** Interpolating at a point's own arc length gives the point. */
  lemma SampledAt(path: Path, d: seq<real>, k: nat)
    requires |path| == |d| >= 2 && Increasing(d) && Sorted(d) && d[0] == 0.0 && k < |d|
    ensures Interpolate(path, d, d[k]) == path[k]
  {
    hide Interpolate, LerpPoint;
    if k < |d| - 1 {
      OnSegment(path, d, k, d[k]);
      UnitRatios(d[k + 1] - d[k]);
      LerpEnds(path[k], path[k + 1]);
    } else {
      PathEnds(path, d);
    }
  }

  // ----- the speed at the bend

  /** On the bend nothing is capped below the top speed but the ends. */
  lemma BentCaps(sqrt: Sqrt, b: Bend, limits: CourseLimits, i: nat)
    requires IsSqrt(sqrt) && b.Valid() && i < |Bent(b)|
    ensures !Sharp(Curvatures(sqrt, Bent(b))[i]) && CapsDefined(limits, Curvatures(sqrt, Bent(b)))
    ensures 0 < i < 2 * b.arm ==>
              EndedCaps(sqrt, limits, Curvatures(sqrt, Bent(b)))[i] == TopSpeed(limits)
  {
    hide CurvatureAt, Bent;
    var curvatures := Curvatures(sqrt, Bent(b));
    forall k | 0 <= k < |Bent(b)| ensures !Sharp(curvatures[k]) {
      if k == b.arm { BendCurvature(sqrt, b); } else { StraightCurvature(sqrt, b, k); }
    }
  }

  lemma {:induction false} EvenArc(ds: seq<real>, interval: real, i: nat)
    requires i <= |ds| && forall k :: 0 <= k < |ds| ==> ds[k] == interval
    ensures Arc(ds, i) == Multiple(i, interval)
  {
    MultiplesStep(0, interval);
    if i > 0 {
      EvenArc(ds, interval, i - 1);
      MultiplesStep(i - 1, interval);
    }
  }

  /** The caps and gaps of the sweep over a bend. */
  lemma BentSweep(sqrt: Sqrt, b: Bend, limits: CourseLimits, j: nat)
    requires IsSqrt(sqrt) && b.Valid() && j < |Bent(b)|
    ensures CapsDefined(limits, Curvatures(sqrt, Bent(b)))
    ensures var caps := Squares(EndedCaps(sqrt, limits, Curvatures(sqrt, Bent(b))));
            && |caps| == |Bent(b)| && caps[0] == 0.0 && caps[2 * b.arm] == 0.0
            && (0 < j < 2 * b.arm ==> caps[j] == Sq(TopSpeed(limits)))
    ensures Arc(Segments(sqrt, Bent(b)), j) == Multiple(j, b.interval)
  {
    hide CurvatureAt, Multiple, At, DistanceXY, Sq;
    var ds := Segments(sqrt, Bent(b));
    BentCaps(sqrt, b, limits, j);
    ZeroSquare();
    forall k | 0 <= k < |ds| ensures ds[k] == b.interval { SegmentLength(sqrt, b, k); }
    EvenArc(ds, b.interval, j);
  }

  /** With arms long enough to reach it from a standstill, the top speed is reached at the bend. */
  lemma TopAtBend(sqrt: Sqrt, b: Bend, limits: CourseLimits)
    requires IsSqrt(sqrt) && b.Valid() && limits.maxAccel >= 0.0
    requires var length := Multiple(b.arm, b.interval);
             Gain(limits.maxAccel, length) >= Sq(TopSpeed(limits)) && Gain(Abs(limits.maxDecel), length) >= Sq(TopSpeed(limits))
    ensures CapsDefined(limits, Curvatures(sqrt, Bent(b)))
    ensures var q := SquaredProfile(sqrt, Bent(b), Curvatures(sqrt, Bent(b)), limits);
            |q| == |Bent(b)| && q[b.arm] >= Sq(TopSpeed(limits))
  {
    hide EndedCaps, Sq, Curvatures, Multiple, Gain, Bent, Segments, CapsDefined, Arc, Reach, TopSpeed, Scaled;
    BentLength(b);
    var n, path := b.arm, Bent(b);
    BentSweep(sqrt, b, limits, n);
    var curvatures := Curvatures(sqrt, path);
    var caps, ds, decel := Squares(EndedCaps(sqrt, limits, curvatures)), Segments(sqrt, path), Abs(limits.maxDecel);
    ProfileFeasible(sqrt, path, curvatures, limits);
    var j := SweepClosedForm(caps, ds, limits.maxAccel, decel, true, true, SWEEPS, n);
    BentSweep(sqrt, b, limits, j);
    ReachAtBend(caps, ds, limits.maxAccel, decel, Sq(TopSpeed(limits)), b.interval, n, j);
  }

  lemma BentLength(b: Bend)
    requires b.Valid()
    ensures |Bent(b)| == 2 * b.arm + 1 && b.arm > 0 && b.interval > 0.0
  {
  }

  lemma ReachAtBend(caps: Profile, ds: seq<real>, accel: real, decel: real, top: real, interval: real, n: nat, j: nat)
    requires |caps| == |ds| + 1 == 2 * n + 1 && j < |caps| && n > 0 && interval > 0.0 && accel >= 0.0 && decel >= 0.0
    requires caps[0] == 0.0 && caps[2 * n] == 0.0 && (0 < j < 2 * n ==> caps[j] == top)
    requires Arc(ds, j) == Multiple(j, interval) && Arc(ds, n) == Multiple(n, interval)
    requires Gain(accel, Multiple(n, interval)) >= top && Gain(decel, Multiple(n, interval)) >= top
    ensures Reach(caps, ds, accel, decel, j, n) >= top
  {
    hide Multiple, Arc, Gain, Reach;
    MultiplesStep(0, interval);
    ReachByGain(caps, ds, accel, decel, j, n);
    if j <= n {
      MultiplesOrder(j, n, interval);
      GainNonNegative(accel, Arc(ds, n) - Arc(ds, j));
    } else {
      MultiplesOrder(n, j, interval);
      GainNonNegative(decel, Arc(ds, j) - Arc(ds, n));
      if j == 2 * n { Doubled(n, interval); }
    }
  }

  lemma ReachByGain(caps: Profile, ds: seq<real>, accel: real, decel: real, j: nat, n: nat)
    requires |caps| == |ds| + 1 && j < |caps| && n < |caps|
    ensures Reach(caps, ds, accel, decel, j, n)
         == caps[j] + if j <= n then Gain(accel, Arc(ds, n) - Arc(ds, j)) else Gain(decel, Arc(ds, j) - Arc(ds, n))
  {
    hide Arc;
  }

  lemma GainNonNegative(factor: real, d: real)
    requires factor >= 0.0 && d >= 0.0
    ensures Gain(factor, d) >= 0.0
  {
    NonNegativeProduct(2.0 * factor, d);
  }

  lemma Doubled(n: nat, interval: real)
    ensures Multiple(2 * n, interval) == 2.0 * Multiple(n, interval)
  {
  }

  lemma LongEnough(limits: CourseLimits, interval: real) returns (arm: nat)
    requires LetsMove(limits) && interval > 0.0
    ensures arm > 0
    ensures var length, top := Multiple(arm, interval), Sq(TopSpeed(limits));
            Gain(limits.maxAccel, length) >= top && Gain(Abs(limits.maxDecel), length) >= top
  {
    hide Multiple, Gain, TopSpeed;
    SquareNonNegative(TopSpeed(limits));
    var top, weakest := Sq(TopSpeed(limits)), Min(limits.maxAccel, Abs(limits.maxDecel));
    NonNegativeQuotient(top, 2.0 * weakest);
    arm := StepsBeyond(top / (2.0 * weakest), interval);
    GainReaches(top, weakest, limits.maxAccel, Multiple(arm, interval));
    GainReaches(top, weakest, Abs(limits.maxDecel), Multiple(arm, interval));
  }

  lemma NonNegativeQuotient(x: real, y: real)
    requires x >= 0.0 && y > 0.0
    ensures x / y >= 0.0
  {
  }

  lemma StepsBeyond(distance: real, interval: real) returns (steps: nat)
    requires distance >= 0.0 && interval > 0.0
    ensures steps > 0 && Multiple(steps, interval) >= distance
  {
    FloorBrackets(distance, interval);
    steps := Steps(distance, interval) + 1;
    hide Steps, Multiple;
    MultiplesStep(steps - 1, interval);
  }

  lemma GainReaches(top: real, weakest: real, factor: real, length: real)
    requires 0.0 < weakest <= factor && top >= 0.0 && length >= top / (2.0 * weakest)
    ensures Gain(factor, length) >= top
  {
    QuotientTimes(top, 2.0 * weakest);
    ProductMonotone(top / (2.0 * weakest), length, 2.0 * weakest);
    ProductMonotone(2.0 * weakest, 2.0 * factor, length);
  }

  /**
    * The condition of the lateral check is exact: if it fails and the limits let the vehicle move,
    * then for every sampling interval up to 1e9 and no smoothing there is a path whose built
    * course breaks the check.
    */
  lemma LateralCheckFails(sqrt: Sqrt, limits: CourseLimits, interval: real) returns (raw: Path)
    requires IsSqrt(sqrt) && LetsMove(limits) && !UncappedIsHarmless(limits)
    requires 0.00000001 <= interval <= 1000000000.0
    ensures |raw| >= 2 && PositiveSegments(sqrt, raw)
    ensures CourseSmoothing.Course(sqrt, raw, interval, 0, 0.0) == Some(raw)
    ensures var curvatures := Curvatures(sqrt, raw);
            && CapsDefined(limits, curvatures)
            && !LateralBounded(SquaredProfile(sqrt, raw, curvatures, limits), curvatures, limits)
  {
    hide Multiple, Bent, SquaredProfile, Gain, CurvatureAt, Sq, CapsDefined, PositiveSegments, Resample, TopSpeed;
    var arm := LongEnough(limits, interval);
    var b := SlightBend(sqrt, interval, arm);
    raw := Bent(b);
    BentLength(b);
    BentIsSampled(sqrt, b);
    TopAtBend(sqrt, b, limits);
    BendCurvature(sqrt, b);
    var curvatures := Curvatures(sqrt, raw);
    var q := SquaredProfile(sqrt, raw, curvatures, limits);
    FasterIsWorse(limits, q[arm], curvatures[arm]);
  }

  lemma FasterIsWorse(limits: CourseLimits, q: real, curvature: real)
    requires !UncappedIsHarmless(limits) && q >= Sq(TopSpeed(limits)) && Abs(curvature) == STRAIGHT
    ensures LateralAcceleration(q, curvature) > limits.maxLateralAccel + 0.00001
  {
    ProductMonotone(Sq(TopSpeed(limits)), q, STRAIGHT);
  }

  lemma SlightBend(sqrt: Sqrt, interval: real, arm: nat) returns (b: Bend)
    requires IsSqrt(sqrt) && 0.00000001 <= interval <= 1000000000.0 && arm > 0
    ensures b.Valid() && b.interval == interval && b.arm == arm
  {
    var rise := SlightRise(interval);
    RiseIsSmall(interval);
    NonNegativeProduct(interval - rise, interval + rise);
    DifferenceOfSquares(interval, rise);
    b := Bend(interval, sqrt(interval * interval - rise * rise), rise, arm);
  }
}
