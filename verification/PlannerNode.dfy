/** The local planner node: which course, odometry and progress it keeps between callbacks. */
module PlannerNode {
  import opened Basics
  import opened Bisect
  import opened PlaneGeometry
  import opened LocalEnvelope
  import opened LocalPlanner

  datatype Attitude = Attitude(x: real, y: real, z: real, w: real)

  datatype Odometry = Odometry(position: Point, attitude: Attitude, speedX: real)

  /** The heading error at a point of a course, from quaternions and angles that stay opaque. */
  type HeadingError = (seq<TrajectoryPoint>, nat, Attitude) -> real

  const FUTURE_TOLERANCE := 0.05

  predicate StampIsFresh(stamp: real, now: real, timeout: real) {
    timeout >= 0.0 && -FUTURE_TOLERANCE <= now - stamp <= timeout
  }

  function EgoOn(course: seq<TrajectoryPoint>, odometry: Odometry, heading: HeadingError): (ego: Ego)
    ensures |ego.headingErrors| == |course| && ego.position == odometry.position
    ensures forall i :: 0 <= i < |course| ==> ego.headingErrors[i] == heading(course, i, odometry.attitude)
  {
    Ego(odometry.position, seq(|course|, i requires 0 <= i < |course| => heading(course, i, odometry.attitude)))
  }

  // ----- the progress of a run over one course

  /** One cycle that found the vehicle on the course. */
  datatype Cycle = Cycle(index: nat, speed: real)

  /** Progress from one cycle to the next: never back, and at most the search distance ahead. */
  predicate Advances(d: seq<real>, before: Cycle, after: Cycle, config: PlannerConfig) {
    before.index <= after.index < |d|
    && d[after.index] - d[before.index] <= Max(ForwardDistance(after.speed, config), 0.0)
  }

  predicate Tracked(d: seq<real>, track: seq<Cycle>, config: PlannerConfig) {
    && (forall i :: 0 <= i < |track| ==> track[i].index < |d|)
    && (forall i :: 0 <= i < |track| - 1 ==> Advances(d, track[i], track[i + 1], config))
  }

  /** Over any number of cycles: monotone, and at most the per-cycle bound times their number. */
  lemma {:induction false} ProgressOverRun(d: seq<real>, track: seq<Cycle>, config: PlannerConfig, top: real, i: nat, j: nat)
    requires Tracked(d, track, config) && i <= j < |track| && config.nearestForwardTime >= 0.0
    requires forall k :: i < k <= j ==> track[k].speed <= top
    ensures track[i].index <= track[j].index < |d|
    ensures d[track[j].index] - d[track[i].index] <= (j - i) as real * Max(ForwardDistance(top, config), 0.0)
  {
    hide ForwardDistance;
    if i < j {
      ProgressOverRun(d, track, config, top, i, j - 1);
      assert Advances(d, track[j - 1], track[j], config);
      ForwardMonotone(track[j].speed, top, config);
      OneMore(j - 1 - i, Max(ForwardDistance(top, config), 0.0));
    }
  }

  lemma OneMore(n: nat, step: real)
    ensures (n + 1) as real * step == n as real * step + step
  {
  }

  lemma ForwardMonotone(speed: real, top: real, config: PlannerConfig)
    requires speed <= top && config.nearestForwardTime >= 0.0
    ensures ForwardDistance(speed, config) <= ForwardDistance(top, config)
  {
    var v, w, t := Max(speed, 0.0), Max(top, 0.0), config.nearestForwardTime;
    NonNegativeProduct(w - v, t);
    assert (w - v) * t == w * t - v * t;
  }

  // ----- the node

  class LocalTrajectoryPlanner {
    const sqrt: Sqrt
    const heading: HeadingError
    const config: PlannerConfig
    const odometryTimeout: real
    var prepared: Option<Prepared>
    var odometry: Option<Odometry>
    var nearestIndex: Option<nat>
    var lastOdometryStamp: real
    var localizationInitialized: bool
    /** The cycles that found a nearest point since the current course was loaded. */
    ghost var track: seq<Cycle>

    ghost predicate Valid()
      reads this
    {
      && IsSqrt(sqrt) && config.maxSpeed >= 0.0 && config.minPointDistance > 0.0
      && (prepared.None? ==> track == [])
      && (prepared.Some? ==> ValidPrepared(sqrt, prepared.value) && Tracked(prepared.value.distances, track, config))
      && nearestIndex == if track == [] then None else Some(track[|track| - 1].index)
    }

    constructor (sqrt: Sqrt, heading: HeadingError, config: PlannerConfig, odometryTimeout: real)
      requires IsSqrt(sqrt) && config.maxSpeed >= 0.0 && config.minPointDistance > 0.0
      ensures Valid() && prepared.None? && odometry.None? && track == [] && lastOdometryStamp == -1.0
      ensures !localizationInitialized
    {
      this.sqrt := sqrt;
      this.heading := heading;
      this.config := config;
      this.odometryTimeout := odometryTimeout;
      prepared, odometry, nearestIndex, track := None, None, None, [];
      lastOdometryStamp, localizationInitialized := -1.0, false;
    }

    /** A course that is refused leaves the current one, and the progress along it, in place. */
    method OnGlobalTrajectory(inMapFrame: bool, points: seq<Received>) returns (loaded: bool)
      requires Valid()
      modifies `prepared, `nearestIndex, `track
      ensures Valid()
      ensures loaded <==> inMapFrame && |Sanitized(sqrt, points, config.minPointDistance)| >= 2
      ensures loaded ==> prepared.Some? && prepared.value.points == Sanitized(sqrt, points, config.minPointDistance)
                         && nearestIndex.None? && track == []
      ensures !loaded ==> prepared == old(prepared) && nearestIndex == old(nearestIndex) && track == old(track)
    {
      if !inMapFrame {
        return false;
      }
      var course := PrepareGlobalTrajectory(sqrt, points, config.minPointDistance);
      if course.None? {
        return false;
      }
      prepared, nearestIndex, track := course, None, [];
      return true;
    }

    /** Kept when well formed, not older than the last one kept, and not from the future. */
    method OnOdometry(wellFormed: bool, stamp: real, message: Odometry, now: real)
      requires Valid()
      modifies `odometry, `lastOdometryStamp
      ensures Valid()
      ensures old(lastOdometryStamp) <= lastOdometryStamp
      ensures if wellFormed && old(lastOdometryStamp) <= stamp <= now + 0.05
              then odometry == Some(message) && lastOdometryStamp == stamp
              else odometry == old(odometry) && lastOdometryStamp == old(lastOdometryStamp)
    {
      if !wellFormed || stamp < lastOdometryStamp || stamp > now + FUTURE_TOLERANCE {
        return;
      }
      lastOdometryStamp, odometry := stamp, Some(message);
    }

    method OnLocalizationState(initialized: bool)
      requires Valid()
      modifies `localizationInitialized
      ensures Valid() && localizationInitialized == initialized
    {
      localizationInitialized := initialized;
    }

    /**
      * One planning cycle. Progress moves only when a nearest point was found, and then as the
      * search says; what is published is the window around it, if it has two points.
      */
    method OnTimer(now: real) returns (published: Option<seq<TrajectoryPoint>>, ghost local: Local)
      requires Valid()
      modifies `nearestIndex, `track
      ensures Valid()
      ensures !(prepared.Some? && odometry.Some? && localizationInitialized
                && odometryTimeout >= 0.0 && -0.05 <= now - lastOdometryStamp <= odometryTimeout)
              ==> published.None? && nearestIndex == old(nearestIndex) && track == old(track)
      ensures prepared.Some? && odometry.Some? && localizationInitialized
              && odometryTimeout >= 0.0 && -0.05 <= now - lastOdometryStamp <= odometryTimeout ==>
                var course, speed := prepared.value, Abs(odometry.value.speedX);
                && |course.distances| == |course.points| > 0 && Sorted(course.distances)
                && IsLocal(sqrt, course, EgoOn(course.points, odometry.value, heading), speed, config,
                           old(nearestIndex), Some(config.maxSpeed), local)
                && (published.Some? <==> |local.points| >= 2)
                && (published.Some? ==> published.value == local.points && local.nearest == nearestIndex)
                && nearestIndex == (if local.nearest.Some? then local.nearest else old(nearestIndex))
                && track == old(track) + (if local.nearest.Some? then [Cycle(local.nearest.value, speed)] else [])
    {
      hide IsLocal, Tracked, ValidPrepared, IsSqrt;
      published, local := None, Local([], None, false);
      if prepared.None? || odometry.None? || !localizationInitialized {
        return;
      }
      if !StampIsFresh(lastOdometryStamp, now, odometryTimeout) {
        return;
      }
      var course, speed := prepared.value, Abs(odometry.value.speedX);
      PreparedIncreases(sqrt, course);
      var ego := EgoOn(course.points, odometry.value, heading);
      var built := BuildLocal(sqrt, course, ego, speed, config, nearestIndex, Some(config.maxSpeed));
      local := built;
      if built.nearest.Some? {
        TrackGrows(sqrt, course, ego, speed, config, track, built);
        track := track + [Cycle(built.nearest.value, speed)];
        nearestIndex := built.nearest;
      }
      if |built.points| >= 2 {
        NothingFoundNothingPublished(sqrt, course, ego, speed, config, old(nearestIndex), Some(config.maxSpeed), built);
        published := Some(built.points);
      }
    }
  }

  lemma NothingFoundNothingPublished(sqrt: Sqrt, course: Prepared, ego: Ego, speed: real, config: PlannerConfig,
                                     previous: Option<nat>, limit: Option<real>, local: Local)
    requires |course.points| == |ego.headingErrors| == |course.distances| > 0 && Sorted(course.distances)
    requires IsLocal(sqrt, course, ego, speed, config, previous, limit, local) && local.points != []
    ensures local.nearest.Some?
  {
  }

  lemma TrackGrows(sqrt: Sqrt, course: Prepared, ego: Ego, speed: real, config: PlannerConfig, track: seq<Cycle>, local: Local)
    requires |course.points| == |ego.headingErrors| == |course.distances| > 0 && Sorted(course.distances)
    requires Tracked(course.distances, track, config) && local.nearest.Some?
    requires IsLocal(sqrt, course, ego, speed, config,
                     if track == [] then None else Some(track[|track| - 1].index), Some(config.maxSpeed), local)
    ensures Tracked(course.distances, track + [Cycle(local.nearest.value, speed)], config)
  {
    hide IsWindow, DistanceXY;
    var next, d := Cycle(local.nearest.value, speed), course.distances;
    if track != [] {
      var last := track[|track| - 1];
      assert Advances(d, last, next, config) by {
        SearchBounds(d, last.index, config, ForwardDistance(speed, config), next.index);
      }
    }
  }

  lemma SearchBounds(d: seq<real>, previous: nat, config: PlannerConfig, forward: real, k: nat)
    requires previous < |d| && InSearch(d, Some(previous), config, Some(forward), k)
    ensures previous <= k < |d| && d[k] - d[previous] <= Max(forward, 0.0)
  {
  }
}
