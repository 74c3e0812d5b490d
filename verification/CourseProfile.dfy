/** Building a fixed course: its velocity profile, its accelerations, and its own checks. */
module CourseProfile {
  import opened Basics
  import opened PlaneGeometry
  import opened CourseGeometry
  import opened CourseSmoothing
  import opened SpeedSweep

  /** `maxDecel` is configured as a negative acceleration. */
  datatype CourseLimits = CourseLimits(maxSpeed: real, maxLateralAccel: real, maxAccel: real, maxDecel: real)

  const STRAIGHT := 0.000000001
  const SWEEPS := 3

  // ----- curvature

  function Cross(p: Point, c: Point, f: Point): real {
    (c.x - p.x) * (f.y - p.y) - (c.y - p.y) * (f.x - p.x)
  }

  /** Signed curvature of the circle through three points; 0 when two of them coincide. */
  function CurvatureOf(sqrt: Sqrt, p: Point, c: Point, f: Point): real {
    var a, b, d := DistanceXY(sqrt, p, c), DistanceXY(sqrt, c, f), DistanceXY(sqrt, p, f);
    if Min(Min(a, b), d) < 0.000000001 then 0.0
    else
      Positive(a, b);
      Positive(a * b, d);
      2.0 * Cross(p, c, f) / (a * b * d)
  }

  function CurvatureAt(sqrt: Sqrt, points: Path, i: nat): real
    requires i < |points|
  {
    if i == 0 || i == |points| - 1 then 0.0 else CurvatureOf(sqrt, points[i - 1], points[i], points[i + 1])
  }

  function Curvatures(sqrt: Sqrt, points: Path): (r: seq<real>)
    ensures |r| == |points|
  {
    seq(|points|, i requires 0 <= i < |points| => CurvatureAt(sqrt, points, i))
  }

  // ----- velocity

  predicate Sharp(curvature: real) {
    Abs(curvature) > STRAIGHT
  }

  /** The square root of a negative lateral limit is an error. */
  predicate CapsDefined(limits: CourseLimits, curvatures: seq<real>) {
    limits.maxLateralAccel >= 0.0 || forall i :: 0 <= i < |curvatures| ==> !Sharp(curvatures[i])
  }

  function CapSpeed(sqrt: Sqrt, limits: CourseLimits, curvature: real): (r: real)
    requires Sharp(curvature) ==> limits.maxLateralAccel >= 0.0
    ensures r >= 0.0
  {
    Max(0.0, if Sharp(curvature) then Min(limits.maxSpeed, sqrt(limits.maxLateralAccel / Abs(curvature)))
             else limits.maxSpeed)
  }

  function Caps(sqrt: Sqrt, limits: CourseLimits, curvatures: seq<real>): (r: seq<real>)
    requires CapsDefined(limits, curvatures)
    ensures |r| == |curvatures| && NonNegative(r)
  {
    seq(|curvatures|, i requires 0 <= i < |curvatures| => CapSpeed(sqrt, limits, curvatures[i]))
  }

  /** The caps with both ends at a standstill. */
  function EndedCaps(sqrt: Sqrt, limits: CourseLimits, curvatures: seq<real>): (r: seq<real>)
    requires CapsDefined(limits, curvatures) && |curvatures| > 0
    ensures |r| == |curvatures| && NonNegative(r) && r[0] == 0.0 && r[|r| - 1] == 0.0
  {
    ZeroLast(ZeroFirst(Caps(sqrt, limits, curvatures), true), true)
  }

  function Segments(sqrt: Sqrt, points: Path): (r: seq<real>)
    requires |points| > 0
    ensures |r| == |points| - 1
  {
    seq(|points| - 1, i requires 0 <= i < |points| - 1 => DistanceXY(sqrt, points[i], points[i + 1]))
  }

  function SquaredProfile(sqrt: Sqrt, points: Path, curvatures: seq<real>, limits: CourseLimits): Profile
    requires |points| == |curvatures| > 0 && CapsDefined(limits, curvatures)
  {
    var ds := Segments(sqrt, points);
    Iterate(Squares(EndedCaps(sqrt, limits, curvatures)), Scaled(ds, limits.maxAccel), Scaled(ds, Abs(limits.maxDecel)),
            true, true, SWEEPS)
  }

  method VelocityProfile(sqrt: Sqrt, points: Path, curvatures: seq<real>, limits: CourseLimits)
    returns (profile: Option<seq<real>>)
    requires IsSqrt(sqrt) && |points| == |curvatures| > 0
    ensures profile.None? <==>
            limits.maxLateralAccel < 0.0 && exists i :: 0 <= i < |curvatures| && Abs(curvatures[i]) > 0.000000001
    ensures profile.Some? <==> CapsDefined(limits, curvatures)
    ensures profile.Some? ==> |profile.value| == |points| && NonNegative(profile.value)
                              && Squares(profile.value) == SquaredProfile(sqrt, points, curvatures, limits)
  {
    var speeds := new real[|curvatures|](_ => 0.0);
    for i := 0 to |curvatures|
      invariant forall k :: 0 <= k < i ==> Sharp(curvatures[k]) ==> limits.maxLateralAccel >= 0.0
      invariant forall k :: 0 <= k < i ==> speeds[k] == CapSpeed(sqrt, limits, curvatures[k])
    {
      if Abs(curvatures[i]) > STRAIGHT && limits.maxLateralAccel < 0.0 {
        return None;
      }
      speeds[i] := CapSpeed(sqrt, limits, curvatures[i]);
    }
    speeds[0] := 0.0;
    speeds[speeds.Length - 1] := 0.0;
    assert speeds[..] == EndedCaps(sqrt, limits, curvatures);
    SweepInPlace(sqrt, speeds, Segments(sqrt, points), limits.maxAccel, Abs(limits.maxDecel), true, true, SWEEPS);
    profile := Some(speeds[..]);
  }

  // ----- acceleration

  const DISTANCE_FLOOR := 0.000001

  method ComputeAccelerations(sqrt: Sqrt, points: Path, speeds: seq<real>) returns (accelerations: seq<real>)
    requires |points| == |speeds| > 0
    ensures accelerations == Accelerations(Squares(speeds), Segments(sqrt, points), DISTANCE_FLOOR)
  {
    hide DistanceXY;
    ghost var q, gaps := Squares(speeds), Segments(sqrt, points);
    accelerations := [0.0];
    for index := 1 to |points|
      invariant accelerations == Accelerations(q, gaps, DISTANCE_FLOOR)[..index]
    {
      var ds := Max(DistanceXY(sqrt, points[index - 1], points[index]), DISTANCE_FLOOR);
      accelerations := accelerations + [(Sq(speeds[index]) - Sq(speeds[index - 1])) / (2.0 * ds)];
    }
  }

  // ----- the checks of the course validation

  predicate SpeedBounded(speeds: seq<real>, limits: CourseLimits) {
    forall i :: 0 <= i < |speeds| ==> 0.0 <= speeds[i] <= limits.maxSpeed + 0.000001
  }

  function LateralAcceleration(squaredSpeed: real, curvature: real): real {
    squaredSpeed * Abs(curvature)
  }

  predicate LateralBounded(q: Profile, curvatures: seq<real>, limits: CourseLimits) {
    |q| == |curvatures|
    && forall i :: 0 <= i < |q| ==> LateralAcceleration(q[i], curvatures[i]) <= limits.maxLateralAccel + 0.00001
  }

  predicate LongitudinalBounded(accelerations: seq<real>, limits: CourseLimits) {
    forall i :: 0 <= i < |accelerations| ==>
      limits.maxDecel - 0.00001 <= accelerations[i] <= limits.maxAccel + 0.00001
  }

  lemma SegmentsNonNegative(sqrt: Sqrt, points: Path)
    requires IsSqrt(sqrt) && |points| > 0
    ensures NonNegative(Segments(sqrt, points))
  {
    forall i | 0 <= i < |points| - 1 ensures Segments(sqrt, points)[i] >= 0.0 {
      DistanceSquared(sqrt, points[i], points[i + 1]);
    }
  }

  lemma SquaresNonNegative(v: seq<real>)
    ensures NonNegative(Squares(v))
  {
    forall i | 0 <= i < |v| ensures Squares(v)[i] >= 0.0 { SquareNonNegative(v[i]); }
  }

  /** With an acceleration that is not negative the profile respects its caps and both accelerations. */
  lemma ProfileFeasible(sqrt: Sqrt, points: Path, curvatures: seq<real>, limits: CourseLimits)
    requires IsSqrt(sqrt) && |points| == |curvatures| > 0 && CapsDefined(limits, curvatures) && limits.maxAccel >= 0.0
    ensures var ds := Segments(sqrt, points);
            var caps := Squares(EndedCaps(sqrt, limits, curvatures));
            var rise, fall := Scaled(ds, limits.maxAccel), Scaled(ds, Abs(limits.maxDecel));
            && SquaredProfile(sqrt, points, curvatures, limits) == Sweep(caps, rise, fall)
            && Feasible(Sweep(caps, rise, fall), caps, rise, fall) && NonNegative(Sweep(caps, rise, fall))
            && NonNegative(ds) && NonNegative(caps) && EndsZeroed(caps, true, true)
  {
    var ds := Segments(sqrt, points);
    var ended := EndedCaps(sqrt, limits, curvatures);
    SegmentsNonNegative(sqrt, points);
    SquaresNonNegative(ended);
    ZeroSquare();
    ScaledNonNegative(ds, limits.maxAccel);
    ScaledNonNegative(ds, Abs(limits.maxDecel));
    OneIterationSuffices(Squares(ended), Scaled(ds, limits.maxAccel), Scaled(ds, Abs(limits.maxDecel)), true, true, SWEEPS);
    SweepFeasible(Squares(ended), Scaled(ds, limits.maxAccel), Scaled(ds, Abs(limits.maxDecel)));
  }

  /** Whatever the accelerations, the profile is below its caps and stops at both ends. */
  lemma ProfileBelowCaps(sqrt: Sqrt, points: Path, curvatures: seq<real>, limits: CourseLimits, i: nat)
    requires |points| == |curvatures| > 0 && CapsDefined(limits, curvatures) && i < |points|
    ensures var q := SquaredProfile(sqrt, points, curvatures, limits);
            && |q| == |points| && 0.0 <= q[i] <= Sq(EndedCaps(sqrt, limits, curvatures)[i])
            && q[0] == 0.0 && q[|q| - 1] == 0.0
  {
    var ds, ended := Segments(sqrt, points), EndedCaps(sqrt, limits, curvatures);
    SquaresNonNegative(ended);
    IterateLowers(Squares(ended), Scaled(ds, limits.maxAccel), Scaled(ds, Abs(limits.maxDecel)), true, true, SWEEPS, i);
  }

  /** The speed limit as the profile uses it. */
  function TopSpeed(limits: CourseLimits): real {
    Max(0.0, limits.maxSpeed)
  }

  lemma CapAtMost(sqrt: Sqrt, limits: CourseLimits, curvature: real)
    requires IsSqrt(sqrt) && (Sharp(curvature) ==> limits.maxLateralAccel >= 0.0)
    ensures var c := CapSpeed(sqrt, limits, curvature);
            && 0.0 <= c <= TopSpeed(limits)
            && (Sharp(curvature) ==> LateralAcceleration(Sq(c), curvature) <= limits.maxLateralAccel)
  {
    if Sharp(curvature) {
      var k := Abs(curvature);
      var x := limits.maxLateralAccel / k;
      QuotientTimes(limits.maxLateralAccel, k);
      var c := CapSpeed(sqrt, limits, curvature);
      SquareMonotone(c, sqrt(x));
      assert Sq(c) <= x;
      ProductMonotone(Sq(c), x, k);
    }
  }

  /**
    * Every built profile starts and ends at a standstill, and stays within the speed limit
    * exactly if the limit is not negative beyond the tolerance.
    */
  lemma SpeedChecksPass(sqrt: Sqrt, points: Path, curvatures: seq<real>, limits: CourseLimits, speeds: seq<real>)
    requires IsSqrt(sqrt) && |points| == |curvatures| == |speeds| > 0 && CapsDefined(limits, curvatures)
    requires NonNegative(speeds) && Squares(speeds) == SquaredProfile(sqrt, points, curvatures, limits)
    ensures speeds[0] == 0.0 == speeds[|speeds| - 1]
    ensures SpeedBounded(speeds, limits) <==> limits.maxSpeed >= -0.000001
    ensures forall i :: 0 <= i < |speeds| ==> 0.0 <= speeds[i] <= Max(0.0, limits.maxSpeed)
  {
    var ended := EndedCaps(sqrt, limits, curvatures);
    ZeroSquare();
    forall i | 0 <= i < |speeds|
      ensures speeds[i] <= ended[i] <= TopSpeed(limits) && speeds[0] == 0.0 && speeds[|speeds| - 1] == 0.0
    {
      ProfileBelowCaps(sqrt, points, curvatures, limits, i);
      assert Squares(speeds)[i] == Sq(speeds[i]) && Squares(speeds)[0] == Sq(speeds[0]);
      assert Squares(speeds)[|speeds| - 1] == Sq(speeds[|speeds| - 1]);
      SquareMonotone(speeds[i], ended[i]);
      SquareMonotone(speeds[0], 0.0);
      SquareMonotone(speeds[|speeds| - 1], 0.0);
      CapAtMost(sqrt, limits, curvatures[i]);
    }
  }

  /**
    * Accelerations pass the check, whatever the distance floor does, for limits of the meant
    * signs and for a wrong sign that its tolerance absorbs.
    */
  lemma LongitudinalCheckPasses(sqrt: Sqrt, points: Path, curvatures: seq<real>, limits: CourseLimits)
    requires IsSqrt(sqrt) && |points| == |curvatures| > 0 && CapsDefined(limits, curvatures)
    requires limits.maxAccel >= -0.00001 && limits.maxDecel <= 0.000005
    ensures var ds := Segments(sqrt, points);
            LongitudinalBounded(Accelerations(SquaredProfile(sqrt, points, curvatures, limits), ds, DISTANCE_FLOOR), limits)
  {
    hide Segments, SquaredProfile, AccelerationAt, Sweep, EndedCaps;
    var ds, q := Segments(sqrt, points), SquaredProfile(sqrt, points, curvatures, limits);
    ProfileBelowCaps(sqrt, points, curvatures, limits, 0);
    forall i | 0 <= i < |points|
      ensures limits.maxDecel - 0.00001 <= AccelerationAt(q, ds, DISTANCE_FLOOR, i) <= limits.maxAccel + 0.00001
    {
      if limits.maxAccel >= 0.0 {
        ProfileFeasible(sqrt, points, curvatures, limits);
        AccelerationBounded(q, Squares(EndedCaps(sqrt, limits, curvatures)), ds, limits.maxAccel, Abs(limits.maxDecel),
                            DISTANCE_FLOOR, i);
      } else {
        NothingMoves(sqrt, points, curvatures, limits, i);
      }
    }
  }

  lemma NothingMoves(sqrt: Sqrt, points: Path, curvatures: seq<real>, limits: CourseLimits, i: nat)
    requires IsSqrt(sqrt) && |points| == |curvatures| > 0 && CapsDefined(limits, curvatures) && limits.maxAccel < 0.0
    requires i < |points|
    ensures var q, ds := SquaredProfile(sqrt, points, curvatures, limits), Segments(sqrt, points);
            |q| == |points| && AccelerationAt(q, ds, DISTANCE_FLOOR, i) == 0.0
  {
    hide Segments, SquaredProfile;
    StandsStill(sqrt, points, curvatures, limits, i);
    if i > 0 {
      StandsStill(sqrt, points, curvatures, limits, i - 1);
    }
  }

  /** Limits that let the vehicle leave a standstill and come back to one. */
  predicate LetsMove(limits: CourseLimits) {
    limits.maxAccel > 0.0 && limits.maxDecel != 0.0
  }

  lemma StandsStill(sqrt: Sqrt, points: Path, curvatures: seq<real>, limits: CourseLimits, i: nat)
    requires IsSqrt(sqrt) && |points| == |curvatures| > 0 && CapsDefined(limits, curvatures) && !LetsMove(limits)
    requires i < |points|
    ensures var q := SquaredProfile(sqrt, points, curvatures, limits); |q| == |points| && q[i] == 0.0
  {
    hide Segments, EndedCaps, Iterate, Sq, Scaled;
    var ds, ended := Segments(sqrt, points), EndedCaps(sqrt, limits, curvatures);
    SegmentsNonNegative(sqrt, points);
    SquaresNonNegative(ended);
    ZeroSquare();
    if limits.maxAccel <= 0.0 { ScaledNotPositive(ds, limits.maxAccel); } else { ScaledNotPositive(ds, 0.0); }
    IterateStaysZero(Squares(ended), Scaled(ds, limits.maxAccel), Scaled(ds, Abs(limits.maxDecel)), true, true, SWEEPS, i);
  }

  lemma ScaledNotPositive(ds: seq<real>, factor: real)
    requires factor <= 0.0 && NonNegative(ds)
    ensures forall k :: 0 <= k < |ds| ==> Scaled(ds, factor)[k] <= 0.0
  {
    forall k | 0 <= k < |ds| ensures Scaled(ds, factor)[k] <= 0.0 {
      ProductNonNegative(-2.0 * factor, ds[k]);
      assert -2.0 * factor * ds[k] == -(2.0 * factor * ds[k]);
    }
  }

  /** The first acceleration is 0, so a limit wrong by more than the tolerance fails the check on every course. */
  lemma LongitudinalCheckNeedsSigns(q: Profile, ds: seq<real>, limits: CourseLimits)
    requires |q| == |ds| + 1 && LongitudinalBounded(Accelerations(q, ds, DISTANCE_FLOOR), limits)
    ensures limits.maxDecel <= 0.00001 && limits.maxAccel >= -0.00001
  {
    assert Accelerations(q, ds, DISTANCE_FLOOR)[0] == 0.0;
  }

  /** The smallest curvature that is capped bounds how far an uncapped point can overshoot. */
  predicate UncappedIsHarmless(limits: CourseLimits) {
    Sq(TopSpeed(limits)) * STRAIGHT <= limits.maxLateralAccel + 0.00001
  }

  lemma LateralCheckPasses(sqrt: Sqrt, points: Path, curvatures: seq<real>, limits: CourseLimits)
    requires IsSqrt(sqrt) && |points| == |curvatures| > 0 && CapsDefined(limits, curvatures) && UncappedIsHarmless(limits)
    ensures LateralBounded(SquaredProfile(sqrt, points, curvatures, limits), curvatures, limits)
  {
    hide Segments, SquaredProfile, Sweep, CapSpeed, UncappedIsHarmless, Sq, LateralAcceleration;
    var ended := EndedCaps(sqrt, limits, curvatures);
    var q := SquaredProfile(sqrt, points, curvatures, limits);
    ProfileBelowCaps(sqrt, points, curvatures, limits, 0);
    forall i | 0 <= i < |q| ensures LateralAcceleration(q[i], curvatures[i]) <= limits.maxLateralAccel + 0.00001 {
      ProfileBelowCaps(sqrt, points, curvatures, limits, i);
      CapAtMost(sqrt, limits, curvatures[i]);
      LateralAtPoint(limits, q[i], ended[i], CapSpeed(sqrt, limits, curvatures[i]), curvatures[i]);
    }
  }

  /** Where nothing moves, the check only asks the lateral limit not to be negative beyond the tolerance. */
  lemma LateralCheckAtStandstill(sqrt: Sqrt, points: Path, curvatures: seq<real>, limits: CourseLimits)
    requires IsSqrt(sqrt) && |points| == |curvatures| > 0 && CapsDefined(limits, curvatures) && !LetsMove(limits)
    ensures LateralBounded(SquaredProfile(sqrt, points, curvatures, limits), curvatures, limits)
            <==> limits.maxLateralAccel >= -0.00001
  {
    hide SquaredProfile;
    var q := SquaredProfile(sqrt, points, curvatures, limits);
    StandsStill(sqrt, points, curvatures, limits, 0);
    forall i | 0 <= i < |points| ensures q[i] == 0.0 && LateralAcceleration(q[i], curvatures[i]) == 0.0 {
      StandsStill(sqrt, points, curvatures, limits, i);
    }
    assert LateralAcceleration(q[0], curvatures[0]) == 0.0;
  }

  lemma LateralAtPoint(limits: CourseLimits, q: real, ended: real, cap: real, curvature: real)
    requires UncappedIsHarmless(limits)
    requires q <= Sq(ended) && 0.0 <= ended <= cap <= TopSpeed(limits)
    requires Sharp(curvature) ==> LateralAcceleration(Sq(cap), curvature) <= limits.maxLateralAccel
    ensures LateralAcceleration(q, curvature) <= limits.maxLateralAccel + 0.00001
  {
    hide Sq, CapSpeed;
    SquareMonotone(ended, cap);
    if Sharp(curvature) {
      ProductMonotone(q, Sq(cap), Abs(curvature));
    } else {
      SquareMonotone(cap, TopSpeed(limits));
      SquareMonotone(0.0, TopSpeed(limits));
      ZeroSquare();
      UncappedBound(limits, q, Sq(TopSpeed(limits)), Abs(curvature));
    }
  }

  lemma UncappedBound(limits: CourseLimits, q: real, top: real, k: real)
    requires q <= top && 0.0 <= top && 0.0 <= k <= STRAIGHT
    requires top * STRAIGHT <= limits.maxLateralAccel + 0.00001
    ensures q * k <= limits.maxLateralAccel + 0.00001
  {
    ProductMonotone(q, top, k);
    ProductMonotone(k, STRAIGHT, top);
  }

  // ----- the whole build

  datatype Course = Course(points: Path, arc: seq<real>, curvatures: seq<real>, speeds: seq<real>, accelerations: seq<real>)

  datatype BuildConfig = BuildConfig(interval: real, radius: int, maxOffset: real, limits: CourseLimits)

  /** The course of a path: the smoothed one with its own arc lengths, curvatures, speeds and accelerations. */
  ghost predicate IsBuilt(sqrt: Sqrt, raw: Path, config: BuildConfig, c: Course)
    requires |raw| >= 2 && IsSqrt(sqrt) && PositiveSegments(sqrt, raw)
  {
    && Some(c.points) == CourseSmoothing.Course(sqrt, raw, config.interval, config.radius, config.maxOffset)
    && c.arc == Cumulative(sqrt, c.points) && c.curvatures == Curvatures(sqrt, c.points)
    && |c.speeds| == |c.points| > 0 && NonNegative(c.speeds) && CapsDefined(config.limits, c.curvatures)
    && Squares(c.speeds) == SquaredProfile(sqrt, c.points, c.curvatures, config.limits)
    && c.accelerations == Accelerations(Squares(c.speeds), Segments(sqrt, c.points), DISTANCE_FLOOR)
  }

  /** `build_course_samples`: fails exactly on a non-positive interval or an undefined lateral cap. */
  method BuildCourse(sqrt: Sqrt, raw: Path, config: BuildConfig) returns (course: Option<Course>)
    requires |raw| >= 2 && IsSqrt(sqrt) && PositiveSegments(sqrt, raw)
    ensures course.None? <==>
            config.interval <= 0.0
            || !CapsDefined(config.limits, Curvatures(sqrt, CourseSmoothing.Course(sqrt, raw, config.interval, config.radius,
                                                                                   config.maxOffset).value))
    ensures course.Some? ==> IsBuilt(sqrt, raw, config, course.value)
  {
    var resampled := ResamplePath(sqrt, raw, config.interval);
    if resampled.None? {
      return None;
    }
    ResampleEndpoints(sqrt, raw, config.interval);
    var points := BoundedSmooth(sqrt, resampled.value, config.radius, config.maxOffset);
    var arc := CumulativeDistances(sqrt, points);
    var curvatures := Curvatures(sqrt, points);
    var speeds := VelocityProfile(sqrt, points, curvatures, config.limits);
    if speeds.None? {
      return None;
    }
    var accelerations := ComputeAccelerations(sqrt, points, speeds.value);
    course := Some(Course(points, arc, curvatures, speeds.value, accelerations));
  }

  /** A built course stops at its end and passes its own spacing, speed and acceleration checks. */
  lemma BuiltCoursePasses(sqrt: Sqrt, raw: Path, config: BuildConfig, c: Course)
    requires |raw| >= 2 && IsSqrt(sqrt) && PositiveSegments(sqrt, raw) && config.interval > 0.0
    requires IsBuilt(sqrt, raw, config, c)
    ensures |c.speeds| == |c.points| == |c.arc| > 0 && c.speeds[|c.speeds| - 1] == 0.0
    ensures SpeedBounded(c.speeds, config.limits) <==> config.limits.maxSpeed >= -0.000001
    ensures config.limits.maxAccel >= -0.00001 && config.limits.maxDecel <= 0.000005 ==>
              LongitudinalBounded(c.accelerations, config.limits)
    ensures UncappedIsHarmless(config.limits) ==> LateralBounded(Squares(c.speeds), c.curvatures, config.limits)
    ensures 2.0 * Max(0.0, config.maxOffset) + 0.000001 <= 0.25 * config.interval ==>
              forall k :: 0 <= k < |c.arc| - 1 ==> c.arc[k + 1] - c.arc[k] <= config.interval * 1.25
  {
    hide Curvatures, SquaredProfile, Cumulative, CourseSmoothing.Course, SpeedBounded, LongitudinalBounded, LateralBounded, CapsDefined, IsSqrt;
    SpeedChecksPass(sqrt, c.points, c.curvatures, config.limits, c.speeds);
    if config.limits.maxAccel >= -0.00001 && config.limits.maxDecel <= 0.000005 {
      LongitudinalCheckPasses(sqrt, c.points, c.curvatures, config.limits);
    }
    if UncappedIsHarmless(config.limits) {
      LateralCheckPasses(sqrt, c.points, c.curvatures, config.limits);
    }
    if 2.0 * Max(0.0, config.maxOffset) + 0.000001 <= 0.25 * config.interval {
      SpacingCheckPasses(sqrt, raw, config.interval, config.radius, config.maxOffset, c.points, c.arc);
    }
  }
}
