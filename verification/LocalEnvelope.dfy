/** The speed envelope of a local trajectory: its caps, its departure speed and its sweep. */
module LocalEnvelope {
  import opened Basics
  import opened PlaneGeometry
  import opened CourseGeometry
  import opened SpeedSweep
  import CourseProfile

  /** `maxDecel` is configured as a negative acceleration. */
  datatype PlannerConfig = PlannerConfig(
    lookahead: real, backward: real, minPointDistance: real,
    maxSpeed: real, maxAccel: real, maxDecel: real,
    nearestForward: real, nearestForwardTime: real, initialSearch: real,
    positionGate: real, headingGate: real, zGate: real,
    latency: real, stoppingMargin: real, departureSpeed: real)

  datatype TrajectoryPoint = TrajectoryPoint(position: Point, speed: real, acceleration: real)

  const STANDSTILL := 0.001
  const SWEEPS := 2
  const DISTANCE_FLOOR := 0.001

  function Positions(points: seq<TrajectoryPoint>): (r: Path)
    ensures |r| == |points|
  {
    seq(|points|, i requires 0 <= i < |points| => points[i].position)
  }

  function Gaps(sqrt: Sqrt, points: seq<TrajectoryPoint>): (r: seq<real>)
    requires points != []
    ensures |r| == |points| - 1
  {
    CourseProfile.Segments(sqrt, Positions(points))
  }

  // ----- what the sweep starts from

  function EffectiveLimit(config: PlannerConfig, limit: Option<real>): real {
    if limit.Some? then Min(config.maxSpeed, Max(0.0, limit.value)) else config.maxSpeed
  }

  function CourseCaps(points: seq<TrajectoryPoint>, effective: real): (r: seq<real>)
    ensures |r| == |points|
  {
    seq(|points|, i requires 0 <= i < |points| => Min(effective, Max(0.0, points[i].speed)))
  }

  /** The first moving speed of a list, or 0. */
  function FirstMoving(speeds: seq<real>): real {
    if speeds == [] then 0.0
    else if speeds[0] > STANDSTILL then speeds[0]
    else FirstMoving(speeds[1..])
  }

  /** The speed at the first point: the vehicle's own, or one to depart with. */
  function StartSpeed(caps: seq<real>, effective: real, current: real, departure: real): real
    requires caps != []
  {
    var own := Min(caps[0], Max(0.0, current));
    var next := FirstMoving(caps[1..]);
    if own <= STANDSTILL && next > 0.0 then Min(Min(next, effective), Max(Max(0.0, current), departure)) else own
  }

  function StartedCaps(points: seq<TrajectoryPoint>, current: real, config: PlannerConfig, goal: bool,
                       limit: Option<real>): (r: seq<real>)
    requires points != []
    ensures |r| == |points|
  {
    var effective := EffectiveLimit(config, limit);
    var caps := CourseCaps(points, effective);
    ZeroLast(caps[0 := StartSpeed(caps, effective, current, config.departureSpeed)], goal)
  }

  /** The squared speeds of the envelope. */
  function Envelope(sqrt: Sqrt, points: seq<TrajectoryPoint>, current: real, config: PlannerConfig, goal: bool,
                    limit: Option<real>): (r: Profile)
    requires points != []
    ensures |r| == |points|
  {
    var ds := Gaps(sqrt, points);
    Iterate(Squares(StartedCaps(points, current, config, goal, limit)),
            Scaled(ds, config.maxAccel), Scaled(ds, Abs(config.maxDecel)), false, goal, SWEEPS)
  }

  /** `out` is `points` with the envelope's speeds and the accelerations between them. */
  ghost predicate Enveloped(sqrt: Sqrt, points: seq<TrajectoryPoint>, current: real, config: PlannerConfig, goal: bool,
                            limit: Option<real>, out: seq<TrajectoryPoint>)
    requires points != []
  {
    var q := Envelope(sqrt, points, current, config, goal, limit);
    && |out| == |points|
    && forall i :: 0 <= i < |out| ==>
         && out[i].position == points[i].position
         && out[i].speed >= 0.0 && Sq(out[i].speed) == q[i]
         && out[i].acceleration == AccelerationAt(q, Gaps(sqrt, points), DISTANCE_FLOOR, i)
  }

  lemma FirstMovingIsOne(speeds: seq<real>)
    ensures FirstMoving(speeds) > 0.0 <==> exists i :: 0 <= i < |speeds| && speeds[i] > STANDSTILL
    ensures FirstMoving(speeds) > 0.0 ==> FirstMoving(speeds) in speeds && FirstMoving(speeds) > STANDSTILL
    ensures FirstMoving(speeds) >= 0.0
  {
    if speeds != [] && speeds[0] <= STANDSTILL {
      FirstMovingIsOne(speeds[1..]);
      if i :| 0 <= i < |speeds| && speeds[i] > STANDSTILL {
        assert speeds[1..][i - 1] == speeds[i];
      }
    }
  }

  /** A cap: the least of a point's course speed, the configured maximum and the received limit, none of them below 0. */
  predicate IsCap(speed: real, config: PlannerConfig, limit: Option<real>, cap: real) {
    && cap <= Max(0.0, speed) && cap <= config.maxSpeed && (limit.Some? ==> cap <= Max(0.0, limit.value))
    && (cap == Max(0.0, speed) || cap == config.maxSpeed || (limit.Some? && cap == Max(0.0, limit.value)))
  }

  /** The caps before the start and the goal are looked at. */
  function RoadCaps(points: seq<TrajectoryPoint>, config: PlannerConfig, limit: Option<real>): (r: seq<real>)
    ensures |r| == |points|
    ensures forall i :: 0 <= i < |points| ==> IsCap(points[i].speed, config, limit, r[i])
  {
    CourseCaps(points, EffectiveLimit(config, limit))
  }

  /** Point `i` is the first after the start whose cap lets the vehicle move. */
  predicate FirstRoad(caps: seq<real>, i: nat) {
    0 < i < |caps| && caps[i] > 0.001 && forall k :: 0 < k < i ==> caps[k] <= 0.001
  }

  /**
    * What the sweep starts from: the caps of the road; at the start the vehicle's own speed or,
    * from a standstill with road ahead, one to depart with; at the goal nothing.
    */
  lemma StartedCapsExactly(points: seq<TrajectoryPoint>, current: real, config: PlannerConfig, goal: bool, limit: Option<real>)
    requires points != []
    ensures var caps, road := StartedCaps(points, current, config, goal, limit), RoadCaps(points, config, limit);
            var n, own := |points| - 1, Min(road[0], Max(0.0, current));
            && (forall i :: 0 < i < n ==> caps[i] == road[i])
            && (goal ==> caps[n] == 0.0) && (!goal && n > 0 ==> caps[n] == road[n])
            && (!(goal && n == 0) ==>
                  && (own > 0.001 || (forall i :: 0 < i <= n ==> road[i] <= 0.001) ==> caps[0] == own)
                  && (own <= 0.001 ==> forall i: nat :: FirstRoad(road, i) ==>
                        caps[0] == Min(road[i], Max(Max(0.0, current), config.departureSpeed))))
  {
    var road := RoadCaps(points, config, limit);
    FirstMovingIsOne(road[1..]);
    forall i: nat | FirstRoad(road, i) ensures FirstMoving(road[1..]) == road[i] {
      FirstMovingIsFirst(road[1..], i - 1);
    }
    if forall i :: 0 < i < |road| ==> road[i] <= 0.001 {
      assert forall i :: 0 <= i < |road[1..]| ==> road[1..][i] <= 0.001;
    }
  }

  lemma {:induction false} FirstMovingIsFirst(speeds: seq<real>, i: nat)
    requires i < |speeds| && speeds[i] > 0.001 && forall k :: 0 <= k < i ==> speeds[k] <= 0.001
    ensures FirstMoving(speeds) == speeds[i]
  {
    if i > 0 {
      FirstMovingIsFirst(speeds[1..], i - 1);
    }
  }

  /** Every starting cap is a speed between 0 and the effective limit. */
  lemma StartedCapsBounded(points: seq<TrajectoryPoint>, current: real, config: PlannerConfig, goal: bool,
                           limit: Option<real>)
    requires points != [] && config.maxSpeed >= 0.0
    ensures var caps := StartedCaps(points, current, config, goal, limit);
            && (forall i :: 0 <= i < |caps| ==> 0.0 <= caps[i] <= EffectiveLimit(config, limit))
            && (forall i :: 0 < i < |caps| ==> caps[i] <= Max(0.0, points[i].speed))
            && (goal ==> caps[|caps| - 1] == 0.0)
  {
    FirstMovingIsOne(CourseCaps(points, EffectiveLimit(config, limit))[1..]);
  }

  // ----- the envelope in place

  method StartingSpeeds(points: seq<TrajectoryPoint>, current: real, config: PlannerConfig, goal: bool,
                        limit: Option<real>) returns (speeds: array<real>)
    requires points != []
    ensures fresh(speeds) && speeds[..] == StartedCaps(points, current, config, goal, limit)
  {
    var effective := config.maxSpeed;
    if limit.Some? {
      effective := Min(effective, Max(0.0, limit.value));
    }
    ghost var caps := CourseCaps(points, effective);
    speeds := new real[|points|](_ => 0.0);
    for i := 0 to |points|
      invariant forall k :: 0 <= k < i ==> speeds[k] == caps[k]
    {
      speeds[i] := Min(effective, Max(0.0, points[i].speed));
    }
    assert speeds[..] == caps;
    speeds[0] := Min(speeds[0], Max(0.0, current));
    assert speeds[1..] == caps[1..];
    if speeds[0] <= STANDSTILL {
      var next := FirstMoving(speeds[1..]);
      if next > 0.0 {
        speeds[0] := Min(Min(next, effective), Max(Max(0.0, current), config.departureSpeed));
      }
    }
    assert speeds[..] == caps[0 := StartSpeed(caps, effective, current, config.departureSpeed)];
    if goal {
      speeds[speeds.Length - 1] := 0.0;
    }
  }

  method ApplyEnvelope(sqrt: Sqrt, points: array<TrajectoryPoint>, current: real, config: PlannerConfig, goal: bool,
                       limit: Option<real>)
    requires IsSqrt(sqrt) && points.Length > 0 && config.maxSpeed >= 0.0
    modifies points
    ensures Enveloped(sqrt, old(points[..]), current, config, goal, limit, points[..])
  {
    var before := points[..];
    var speeds := StartingSpeeds(before, current, config, goal, limit);
    StartedCapsBounded(before, current, config, goal, limit);
    SweepInPlace(sqrt, speeds, Gaps(sqrt, before), config.maxAccel, Abs(config.maxDecel), false, goal, SWEEPS);
    WriteBack(sqrt, points, speeds[..]);
    PublishedIsEnveloped(sqrt, before, current, config, goal, limit, speeds[..]);
  }

  lemma PublishedIsEnveloped(sqrt: Sqrt, points: seq<TrajectoryPoint>, current: real, config: PlannerConfig, goal: bool,
                             limit: Option<real>, speeds: seq<real>)
    requires points != [] && |speeds| == |points| && NonNegative(speeds)
    requires Squares(speeds) == Envelope(sqrt, points, current, config, goal, limit)
    ensures Enveloped(sqrt, points, current, config, goal, limit, Published(sqrt, points, speeds))
  {
    forall i | 0 <= i < |points| ensures Sq(speeds[i]) == Squares(speeds)[i] {}
  }

  /** The points as the envelope publishes them. */
  function Published(sqrt: Sqrt, points: seq<TrajectoryPoint>, speeds: seq<real>): (r: seq<TrajectoryPoint>)
    requires |speeds| == |points| > 0
    ensures |r| == |points|
  {
    var accelerations := Accelerations(Squares(speeds), Gaps(sqrt, points), DISTANCE_FLOOR);
    seq(|points|, i requires 0 <= i < |points| => TrajectoryPoint(points[i].position, speeds[i], accelerations[i]))
  }

  method WriteBack(sqrt: Sqrt, points: array<TrajectoryPoint>, speeds: seq<real>)
    requires |speeds| == points.Length > 0
    modifies points
    ensures points[..] == Published(sqrt, old(points[..]), speeds)
  {
    hide DistanceXY, Sq, Published;
    ghost var before := points[..];
    ghost var target := Published(sqrt, before, speeds);
    for i := 0 to points.Length
      invariant forall k :: 0 <= k < i ==> points[k] == target[k]
      invariant forall k :: i <= k < points.Length ==> points[k] == before[k]
    {
      PublishedAt(sqrt, before, speeds, i);
      var acceleration := 0.0;
      if i > 0 {
        PublishedAt(sqrt, before, speeds, i - 1);
        var gap := Max(DistanceXY(sqrt, points[i - 1].position, points[i].position), DISTANCE_FLOOR);
        acceleration := (Sq(speeds[i]) - Sq(speeds[i - 1])) / (2.0 * gap);
      }
      points[i] := points[i].(speed := speeds[i], acceleration := acceleration);
    }
  }

  lemma PublishedAt(sqrt: Sqrt, points: seq<TrajectoryPoint>, speeds: seq<real>, i: nat)
    requires i < |speeds| == |points|
    ensures var out := Published(sqrt, points, speeds)[i];
            && out.position == points[i].position && out.speed == speeds[i]
            && out.acceleration == if i == 0 then 0.0 else
                 (Sq(speeds[i]) - Sq(speeds[i - 1]))
                 / (2.0 * Max(DistanceXY(sqrt, points[i - 1].position, points[i].position), DISTANCE_FLOOR))
  {
  }

  // ----- what the envelope guarantees

  /** The envelope is the greatest profile under its caps and both accelerations. */
  lemma EnvelopeFeasible(sqrt: Sqrt, points: seq<TrajectoryPoint>, current: real, config: PlannerConfig, goal: bool,
                         limit: Option<real>)
    requires IsSqrt(sqrt) && points != [] && config.maxSpeed >= 0.0 && config.maxAccel >= 0.0
    ensures var ds := Gaps(sqrt, points);
            var caps := Squares(StartedCaps(points, current, config, goal, limit));
            var rise, fall := Scaled(ds, config.maxAccel), Scaled(ds, Abs(config.maxDecel));
            var q := Envelope(sqrt, points, current, config, goal, limit);
            && NonNegative(ds) && NonNegative(caps) && EndsZeroed(caps, false, goal)
            && NonNegative(rise) && NonNegative(fall)
            && q == Sweep(caps, rise, fall) && Feasible(q, caps, rise, fall) && NonNegative(q)
  {
    var ds := Gaps(sqrt, points);
    var caps := StartedCaps(points, current, config, goal, limit);
    var rise, fall := Scaled(ds, config.maxAccel), Scaled(ds, Abs(config.maxDecel));
    CourseProfile.SegmentsNonNegative(sqrt, Positions(points));
    CourseProfile.SquaresNonNegative(caps);
    ScaledNonNegative(ds, config.maxAccel);
    ScaledNonNegative(ds, Abs(config.maxDecel));
    StartedCapsBounded(points, current, config, goal, limit);
    ZeroSquare();
    OneIterationSuffices(Squares(caps), rise, fall, false, goal, SWEEPS);
    SweepFeasible(Squares(caps), rise, fall);
  }

  /** At every point: the least squared speed that any cap allows there. */
  lemma EnvelopeClosedForm(sqrt: Sqrt, points: seq<TrajectoryPoint>, current: real, config: PlannerConfig, goal: bool,
                           limit: Option<real>, i: nat) returns (j: nat)
    requires IsSqrt(sqrt) && config.maxSpeed >= 0.0 && config.maxAccel >= 0.0 && i < |points|
    ensures var ds := Gaps(sqrt, points);
            var caps := Squares(StartedCaps(points, current, config, goal, limit));
            var v := Envelope(sqrt, points, current, config, goal, limit)[i];
            && (forall k: nat :: k < |caps| ==> v <= Reach(caps, ds, config.maxAccel, Abs(config.maxDecel), k, i))
            && j < |caps| && v == Reach(caps, ds, config.maxAccel, Abs(config.maxDecel), j, i)
  {
    EnvelopeFeasible(sqrt, points, current, config, goal, limit);
    j := SweepClosedForm(Squares(StartedCaps(points, current, config, goal, limit)), Gaps(sqrt, points),
                         config.maxAccel, Abs(config.maxDecel), false, goal, SWEEPS, i);
  }

  /**
    * Every published speed is at most the configured maximum and the received limit; past the
    * first point at most the course speed; 0 at the goal. The accelerations are those between
    * the speeds, over gaps of at least 0.001, and within both limits.
    */
  lemma EnvelopeWithinLimits(sqrt: Sqrt, points: seq<TrajectoryPoint>, current: real, config: PlannerConfig, goal: bool,
                             limit: Option<real>, out: seq<TrajectoryPoint>)
    requires IsSqrt(sqrt) && points != [] && config.maxSpeed >= 0.0 && config.maxAccel >= 0.0
    requires Enveloped(sqrt, points, current, config, goal, limit, out)
    ensures |out| == |points|
    ensures forall i :: 0 <= i < |out| ==>
              out[i].position == points[i].position && 0.0 <= out[i].speed <= config.maxSpeed
              && (limit.Some? ==> out[i].speed <= Max(0.0, limit.value))
    ensures forall i :: 0 < i < |out| ==> out[i].speed <= Max(0.0, points[i].speed)
    ensures goal ==> out[|out| - 1].speed == 0.0
    ensures forall i :: 0 <= i < |out| ==> -Abs(config.maxDecel) <= out[i].acceleration <= config.maxAccel
    ensures out[0].acceleration == 0.0
    ensures forall i :: 0 < i < |out| ==>
              out[i].acceleration * (2.0 * Max(DistanceXY(sqrt, points[i - 1].position, points[i].position), 0.001))
              == Sq(out[i].speed) - Sq(out[i - 1].speed)
  {
    hide DistanceXY, Sq, Envelope, StartedCaps;
    EnvelopeFeasible(sqrt, points, current, config, goal, limit);
    StartedCapsBounded(points, current, config, goal, limit);
    forall i | 0 <= i < |out|
      ensures out[i].speed <= StartedCaps(points, current, config, goal, limit)[i]
      ensures -Abs(config.maxDecel) <= out[i].acceleration <= config.maxAccel
    {
      PointWithinLimits(sqrt, points, current, config, goal, limit, out, i);
    }
    forall i | 0 < i < |out|
      ensures out[i].acceleration * (2.0 * Max(DistanceXY(sqrt, points[i - 1].position, points[i].position), 0.001))
              == Sq(out[i].speed) - Sq(out[i - 1].speed)
    {
      AccelerationExplains(sqrt, points, current, config, goal, limit, out, i);
    }
  }

  lemma PointWithinLimits(sqrt: Sqrt, points: seq<TrajectoryPoint>, current: real, config: PlannerConfig, goal: bool,
                          limit: Option<real>, out: seq<TrajectoryPoint>, i: nat)
    requires IsSqrt(sqrt) && i < |points| && config.maxSpeed >= 0.0 && config.maxAccel >= 0.0
    requires Enveloped(sqrt, points, current, config, goal, limit, out)
    ensures out[i].speed <= StartedCaps(points, current, config, goal, limit)[i]
    ensures -Abs(config.maxDecel) <= out[i].acceleration <= config.maxAccel
  {
    EnvelopeFeasible(sqrt, points, current, config, goal, limit);
    StartedCapsBounded(points, current, config, goal, limit);
    var caps := StartedCaps(points, current, config, goal, limit);
    var q := Envelope(sqrt, points, current, config, goal, limit);
    assert q[i] <= Squares(caps)[i];
    SquareMonotone(out[i].speed, caps[i]);
    AccelerationBounded(q, Squares(caps), Gaps(sqrt, points), config.maxAccel, Abs(config.maxDecel), DISTANCE_FLOOR, i);
  }

  lemma AccelerationExplains(sqrt: Sqrt, points: seq<TrajectoryPoint>, current: real, config: PlannerConfig, goal: bool,
                             limit: Option<real>, out: seq<TrajectoryPoint>, i: nat)
    requires 0 < i < |points| && Enveloped(sqrt, points, current, config, goal, limit, out)
    ensures out[i].acceleration * (2.0 * Max(DistanceXY(sqrt, points[i - 1].position, points[i].position), 0.001))
         == Sq(out[i].speed) - Sq(out[i - 1].speed)
  {
    hide DistanceXY, Sq, Envelope, Gaps, AccelerationAt;
    var q, ds := Envelope(sqrt, points, current, config, goal, limit), Gaps(sqrt, points);
    GapAt(sqrt, points, i);
    AccelerationTimes(q, ds, i);
  }

  lemma GapAt(sqrt: Sqrt, points: seq<TrajectoryPoint>, i: nat)
    requires 0 < i < |points|
    ensures Gaps(sqrt, points)[i - 1] == DistanceXY(sqrt, points[i - 1].position, points[i].position)
  {
    hide DistanceXY;
  }

  lemma AccelerationTimes(q: Profile, ds: seq<real>, i: nat)
    requires |q| == |ds| + 1 && 0 < i < |q|
    ensures AccelerationAt(q, ds, DISTANCE_FLOOR, i) * (2.0 * Max(ds[i - 1], 0.001)) == q[i] - q[i - 1]
  {
    DividedTimes(q[i] - q[i - 1], 2.0 * Max(ds[i - 1], DISTANCE_FLOOR));
  }

  lemma DividedTimes(x: real, y: real)
    requires y > 0.0
    ensures x / y * y == x
  {
  }

  /** The configured maximum and the received limit are above a speed. */
  predicate LimitsAbove(config: PlannerConfig, limit: Option<real>, speed: real) {
    config.maxSpeed > speed && (limit.Some? ==> limit.value > speed)
  }

  /** Whether the trajectory is to start at a positive speed: the vehicle moves, or may depart towards road ahead. */
  predicate Departs(points: seq<TrajectoryPoint>, current: real, config: PlannerConfig, limit: Option<real>)
    requires points != []
  {
    || (current > 0.0 && points[0].speed > 0.0 && LimitsAbove(config, limit, 0.0))
    || ((current > 0.0 || config.departureSpeed > 0.0)
        && LimitsAbove(config, limit, 0.001) && exists i :: 0 < i < |points| && points[i].speed > 0.001)
  }

  lemma StartSpeedPositive(points: seq<TrajectoryPoint>, current: real, config: PlannerConfig, limit: Option<real>)
    requires points != [] && config.maxSpeed >= 0.0
    ensures var effective := EffectiveLimit(config, limit);
            StartSpeed(CourseCaps(points, effective), effective, current, config.departureSpeed) > 0.0
            <==> Departs(points, current, config, limit)
  {
    var caps := RoadCaps(points, config, limit);
    var later := caps[1..];
    FirstMovingIsOne(later);
    if i :| 0 < i < |points| && points[i].speed > 0.001 && LimitsAbove(config, limit, 0.001) {
      assert later[i - 1] == caps[i] > 0.001;
    }
    if i :| 0 <= i < |later| && later[i] > 0.001 {
      assert later[i] == caps[i + 1] && points[i + 1].speed > 0.001;
    }
  }

  /**
    * Departure never deadlocks: on separated points and with brakes, the first published speed
    * is positive exactly when there is a reason to drive, even when the trajectory ends at the goal.
    */
  lemma DepartureNeverDeadlocks(sqrt: Sqrt, points: seq<TrajectoryPoint>, current: real, config: PlannerConfig,
                                goal: bool, limit: Option<real>, out: seq<TrajectoryPoint>)
    requires IsSqrt(sqrt) && |points| >= 2 && PositiveSegments(sqrt, Positions(points))
    requires config.maxSpeed >= 0.0 && config.maxAccel >= 0.0 && config.maxDecel != 0.0
    requires Enveloped(sqrt, points, current, config, goal, limit, out)
    ensures out[0].speed > 0.0 <==> Departs(points, current, config, limit)
  {
    var caps := StartedCaps(points, current, config, goal, limit);
    EnvelopeFeasible(sqrt, points, current, config, goal, limit);
    StartedCapsBounded(points, current, config, goal, limit);
    StartSpeedPositive(points, current, config, limit);
    SquarePositive(caps[0]);
    SquarePositive(out[0].speed);
    SeparatedGaps(sqrt, points);
    var j := EnvelopeClosedForm(sqrt, points, current, config, goal, limit, 0);
    FirstReach(Squares(caps), Gaps(sqrt, points), config.maxAccel, Abs(config.maxDecel), j);
  }

  lemma SeparatedGaps(sqrt: Sqrt, points: seq<TrajectoryPoint>)
    requires points != [] && PositiveSegments(sqrt, Positions(points))
    ensures forall k :: 0 <= k < |points| - 1 ==> Gaps(sqrt, points)[k] > 0.0
  {
    forall k | 0 <= k < |points| - 1 ensures Gaps(sqrt, points)[k] > 0.0 {
      assert DistanceXY(sqrt, Positions(points)[k], Positions(points)[k + 1]) > 0.0;
    }
  }

  /** With brakes and separated points, only a cap of 0 at the first point itself forces a standstill there. */
  lemma FirstReach(caps: Profile, ds: seq<real>, accel: real, decel: real, j: nat)
    requires j < |caps| == |ds| + 1 && NonNegative(caps) && decel > 0.0
    requires forall k :: 0 <= k < |ds| ==> ds[k] > 0.0
    ensures if j == 0 then Reach(caps, ds, accel, decel, j, 0) == caps[0] else Reach(caps, ds, accel, decel, j, 0) > 0.0
  {
    if j == 0 {
      ReachSelf(caps, ds, accel, decel, 0);
    } else {
      ArcPositive(ds, j);
      ProductPositive(2.0 * decel, Arc(ds, j) - Arc(ds, 0));
    }
  }

  lemma SquarePositive(v: real)
    requires v >= 0.0
    ensures Sq(v) >= 0.0 && (Sq(v) > 0.0 <==> v > 0.0)
  {
    if v > 0.0 { SquareMonotone(v, 0.0); }
    ZeroSquare();
  }

  lemma {:induction false} ArcPositive(ds: seq<real>, i: nat)
    requires i <= |ds| && forall k :: 0 <= k < |ds| ==> ds[k] > 0.0
    ensures Arc(ds, i) >= 0.0 && (i > 0 ==> Arc(ds, i) > 0.0)
  {
    if i > 0 {
      ArcPositive(ds, i - 1);
    }
  }
}
