/** The local planner: cleaning the course, tracking progress along it, cutting the window to publish. */
module LocalPlanner {
  import opened Basics
  import opened Bisect
  import opened PlaneGeometry
  import opened CourseGeometry
  import opened LocalEnvelope

  // ----- cleaning the course

  /** A received point, and whether its pose, speed and acceleration are finite. */
  datatype Received = Received(finite: bool, point: TrajectoryPoint)

  predicate Crowds(sqrt: Sqrt, kept: seq<TrajectoryPoint>, p: TrajectoryPoint, gap: real) {
    kept != [] && DistanceXY(sqrt, kept[|kept| - 1].position, p.position) < gap
  }

  function Sanitized(sqrt: Sqrt, points: seq<Received>, gap: real): seq<TrajectoryPoint> {
    if points == [] then [] else
      var n := |points| - 1;
      var kept := Sanitized(sqrt, points[..n], gap);
      if !points[n].finite || Crowds(sqrt, kept, points[n].point, gap) then kept else kept + [points[n].point]
  }

  method SanitizePoints(sqrt: Sqrt, points: seq<Received>, gap: real) returns (kept: seq<TrajectoryPoint>)
    ensures kept == Sanitized(sqrt, points, gap)
  {
    kept := [];
    for i := 0 to |points|
      invariant kept == Sanitized(sqrt, points[..i], gap)
    {
      assert points[..i + 1][..i] == points[..i];
      if !points[i].finite { continue; }
      if kept != [] && DistanceXY(sqrt, kept[|kept| - 1].position, points[i].point.position) < gap { continue; }
      kept := kept + [points[i].point];
    }
    assert points[..|points|] == points;
  }

  /** Consecutive points are at least `gap` apart. */
  predicate Spaced(sqrt: Sqrt, points: seq<TrajectoryPoint>, gap: real) {
    forall i :: 0 <= i < |points| - 1 ==> DistanceXY(sqrt, points[i].position, points[i + 1].position) >= gap
  }

  /** `p` is, or is closer than `gap` to, a kept point. */
  predicate Covered(sqrt: Sqrt, kept: seq<TrajectoryPoint>, p: TrajectoryPoint, gap: real) {
    exists k :: 0 <= k < |kept| && (kept[k] == p || DistanceXY(sqrt, kept[k].position, p.position) < gap)
  }

  lemma {:induction false} SanitizedSpaced(sqrt: Sqrt, points: seq<Received>, gap: real)
    ensures Spaced(sqrt, Sanitized(sqrt, points, gap), gap)
  {
    hide DistanceXY;
    if points != [] {
      SanitizedSpaced(sqrt, points[..|points| - 1], gap);
    }
  }

  /** Every kept point is a finite received point. */
  lemma {:induction false} SanitizedFrom(sqrt: Sqrt, points: seq<Received>, gap: real, k: nat) returns (i: nat)
    requires k < |Sanitized(sqrt, points, gap)|
    ensures i < |points| && points[i] == Received(true, Sanitized(sqrt, points, gap)[k])
  {
    hide DistanceXY;
    i := |points| - 1;
    var before := Sanitized(sqrt, points[..i], gap);
    if k < |before| {
      i := SanitizedFrom(sqrt, points[..i], gap, k);
    }
  }

  /** No finite received point is far from all kept points. */
  lemma {:induction false} SanitizedCovers(sqrt: Sqrt, points: seq<Received>, gap: real, i: nat)
    requires i < |points| && points[i].finite
    ensures Covered(sqrt, Sanitized(sqrt, points, gap), points[i].point, gap)
  {
    hide DistanceXY;
    var n, p := |points| - 1, points[i].point;
    var before, kept := Sanitized(sqrt, points[..n], gap), Sanitized(sqrt, points, gap);
    if i < n {
      SanitizedCovers(sqrt, points[..n], gap, i);
      var k :| 0 <= k < |before| && (before[k] == p || DistanceXY(sqrt, before[k].position, p.position) < gap);
      assert kept[k] == before[k];
    } else if Crowds(sqrt, before, p, gap) {
      assert DistanceXY(sqrt, kept[|kept| - 1].position, p.position) < gap;
    } else {
      assert kept[|kept| - 1] == p;
    }
  }

  // ----- the prepared course

  datatype Prepared = Prepared(points: seq<TrajectoryPoint>, distances: seq<real>)

  ghost predicate ValidPrepared(sqrt: Sqrt, p: Prepared) {
    && |p.points| >= 2
    && p.distances == Cumulative(sqrt, Positions(p.points))
    && PositiveSegments(sqrt, Positions(p.points))
  }

  lemma PreparedIncreases(sqrt: Sqrt, p: Prepared)
    requires ValidPrepared(sqrt, p)
    ensures |p.distances| == |p.points| >= 2 && Increasing(p.distances) && Sorted(p.distances) && p.distances[0] == 0.0
  {
    CumulativeIncreases(sqrt, Positions(p.points));
  }

  /** The orientations are replaced as well; headings are not part of this model. */
  method PrepareGlobalTrajectory(sqrt: Sqrt, points: seq<Received>, gap: real) returns (prepared: Option<Prepared>)
    ensures prepared.None? <==> |Sanitized(sqrt, points, gap)| < 2
    ensures prepared.Some? ==> prepared.value.points == Sanitized(sqrt, points, gap)
    ensures prepared.Some? ==> prepared.value.distances == Cumulative(sqrt, Positions(prepared.value.points))
    ensures prepared.Some? && gap > 0.0 ==> ValidPrepared(sqrt, prepared.value)
  {
    var kept := SanitizePoints(sqrt, points, gap);
    if |kept| < 2 {
      return None;
    }
    var distances := CumulativeDistances(sqrt, Positions(kept));
    SanitizedSpaced(sqrt, points, gap);
    forall i | 0 <= i < |kept| - 1 ensures DistanceXY(sqrt, Positions(kept)[i], Positions(kept)[i + 1]) >= gap {
      assert DistanceXY(sqrt, kept[i].position, kept[i + 1].position) >= gap;
    }
    prepared := Some(Prepared(kept, distances));
  }

  // ----- progress

  /** Where the vehicle is, and how far its heading is from the course's at every point. */
  datatype Ego = Ego(position: Point, headingErrors: seq<real>)

  function SearchStart(n: nat, previous: Option<nat>): nat
    requires n > 0
  {
    if previous.None? then 0 else if previous.value < n then previous.value else n - 1
  }

  function Larger(x: nat, y: nat): nat {
    if x < y then y else x
  }

  /** How far ahead of the previous index to look; the configured distance unless one is given. */
  function SearchDistance(config: PlannerConfig, forward: Option<real>): real {
    match forward
    case None => config.nearestForward
    case Some(distance) => Max(distance, 0.0)
  }

  function SearchEnd(d: seq<real>, previous: Option<nat>, config: PlannerConfig, forward: Option<real>): (r: nat)
    requires d != [] && Sorted(d)
    ensures SearchStart(|d|, previous) < r <= |d|
  {
    if previous.None? then Larger(1, Right(d, config.initialSearch))
    else
      var start := SearchStart(|d|, previous);
      Larger(start + 1, Right(d, d[start] + SearchDistance(config, forward)))
  }

  predicate Gated(sqrt: Sqrt, prepared: Prepared, ego: Ego, config: PlannerConfig, i: nat)
    requires i < |prepared.points| == |ego.headingErrors|
  {
    var p := prepared.points[i].position;
    && DistanceXY(sqrt, p, ego.position) <= config.positionGate
    && Abs(p.z - ego.position.z) <= config.zGate
    && ego.headingErrors[i] <= config.headingGate
  }

  /**
    * Which points may be the nearest one: from the previous one on, as far as the search distance
    * reaches; without a previous one, from the start of the course as far as the initial search.
    */
  predicate InSearch(d: seq<real>, previous: Option<nat>, config: PlannerConfig, forward: Option<real>, i: nat)
    requires d != []
  {
    match previous
    case None => i < |d| && (i == 0 || d[i] <= config.initialSearch)
    case Some(p) =>
      var start := if p < |d| then p else |d| - 1;
      var reach := if forward.None? then config.nearestForward else Max(forward.value, 0.0);
      start <= i < |d| && (i == start || d[i] <= d[start] + reach)
  }

  lemma SearchExactly(d: seq<real>, previous: Option<nat>, config: PlannerConfig, forward: Option<real>, i: nat)
    requires d != [] && Sorted(d)
    ensures InSearch(d, previous, config, forward, i) <==> SearchStart(|d|, previous) <= i < SearchEnd(d, previous, config, forward)
  {
  }

  /** A point that may be looked at, close enough in the plane, in height and in heading. */
  predicate Eligible(sqrt: Sqrt, prepared: Prepared, ego: Ego, previous: Option<nat>, config: PlannerConfig,
                     forward: Option<real>, i: nat)
    requires |prepared.points| == |ego.headingErrors| == |prepared.distances| > 0
  {
    && InSearch(prepared.distances, previous, config, forward, i)
    && DistanceXY(sqrt, prepared.points[i].position, ego.position) <= config.positionGate
    && -config.zGate <= prepared.points[i].position.z - ego.position.z <= config.zGate
    && ego.headingErrors[i] <= config.headingGate
  }

  lemma EligibleExactly(sqrt: Sqrt, prepared: Prepared, ego: Ego, previous: Option<nat>, config: PlannerConfig,
                        forward: Option<real>, i: nat)
    requires |prepared.points| == |ego.headingErrors| == |prepared.distances| > 0 && Sorted(prepared.distances)
    ensures var d := prepared.distances;
            Eligible(sqrt, prepared, ego, previous, config, forward, i) <==>
            SearchStart(|d|, previous) <= i < SearchEnd(d, previous, config, forward) && Gated(sqrt, prepared, ego, config, i)
  {
    hide DistanceXY, SearchEnd, InSearch;
    SearchExactly(prepared.distances, previous, config, forward, i);
    SearchInRange(prepared.distances, previous, config, forward, i);
  }

  lemma SearchInRange(d: seq<real>, previous: Option<nat>, config: PlannerConfig, forward: Option<real>, i: nat)
    requires d != []
    ensures InSearch(d, previous, config, forward, i) ==> i < |d|
  {
  }

  function DistanceAt(sqrt: Sqrt, prepared: Prepared, ego: Ego, i: nat): real
    requires i < |prepared.points|
  {
    DistanceXY(sqrt, prepared.points[i].position, ego.position)
  }

  /** The nearest eligible point, the earliest of equals; nothing exactly when there is no eligible point. */
  predicate Selected(sqrt: Sqrt, prepared: Prepared, ego: Ego, previous: Option<nat>, config: PlannerConfig,
                     forward: Option<real>, r: Option<nat>)
    requires |prepared.points| == |ego.headingErrors| == |prepared.distances| > 0
  {
    match r
    case None => forall i: nat :: i < |prepared.points| ==> !Eligible(sqrt, prepared, ego, previous, config, forward, i)
    case Some(k) =>
      && k < |prepared.points| && Eligible(sqrt, prepared, ego, previous, config, forward, k)
      && forall i: nat :: i < |prepared.points| && Eligible(sqrt, prepared, ego, previous, config, forward, i) ==>
           && DistanceAt(sqrt, prepared, ego, k) <= DistanceAt(sqrt, prepared, ego, i)
           && (i < k ==> DistanceAt(sqrt, prepared, ego, k) < DistanceAt(sqrt, prepared, ego, i))
  }

  /** Exactly the gated points of a range, in order. */
  method GatedIn(sqrt: Sqrt, prepared: Prepared, ego: Ego, config: PlannerConfig, start: nat, end: nat)
    returns (gated: seq<nat>)
    requires start <= end <= |prepared.points| == |ego.headingErrors|
    ensures forall j :: 0 <= j < |gated| ==> start <= gated[j] < end && Gated(sqrt, prepared, ego, config, gated[j])
    ensures forall i: nat :: start <= i < end && Gated(sqrt, prepared, ego, config, i) ==> i in gated
    ensures forall j, k :: 0 <= j < k < |gated| ==> gated[j] < gated[k]
  {
    hide Gated;
    gated := [];
    for index := start to end
      invariant forall j :: 0 <= j < |gated| ==> start <= gated[j] < index && Gated(sqrt, prepared, ego, config, gated[j])
      invariant forall i: nat :: start <= i < index && Gated(sqrt, prepared, ego, config, i) ==> i in gated
      invariant forall j, k :: 0 <= j < k < |gated| ==> gated[j] < gated[k]
    {
      if Gated(sqrt, prepared, ego, config, index) {
        ghost var before := gated;
        gated := gated + [index];
        assert forall i: nat :: i in before ==> i in gated;
        assert gated[|before|] == index;
      }
    }
  }

  /** The first smallest of a non-empty list. */
  method FirstSmallest(distances: seq<real>) returns (best: nat)
    requires distances != []
    ensures best < |distances|
    ensures forall k :: 0 <= k < |distances| ==> distances[best] <= distances[k]
    ensures forall k :: 0 <= k < best ==> distances[best] < distances[k]
  {
    best := 0;
    for j := 1 to |distances|
      invariant best < j
      invariant forall k :: 0 <= k < j ==> distances[best] <= distances[k]
      invariant forall k :: 0 <= k < best ==> distances[best] < distances[k]
    {
      if distances[j] < distances[best] {
        best := j;
      }
    }
  }

  method SelectProgressIndex(sqrt: Sqrt, prepared: Prepared, ego: Ego, previous: Option<nat>, config: PlannerConfig,
                             forward: Option<real>) returns (r: Option<nat>)
    requires |prepared.points| == |ego.headingErrors| == |prepared.distances| > 0 && Sorted(prepared.distances)
    ensures Selected(sqrt, prepared, ego, previous, config, forward, r)
  {
    hide Gated, DistanceXY, Sorted;
    var d := prepared.distances;
    var start, end := SearchStart(|d|, previous), 0;
    if previous.None? {
      end := FindRight(d, config.initialSearch);
      end := Larger(1, end);
    } else {
      end := FindRight(d, d[start] + SearchDistance(config, forward));
      end := Larger(start + 1, end);
    }
    assert end == SearchEnd(d, previous, config, forward);
    forall i: nat
      ensures Eligible(sqrt, prepared, ego, previous, config, forward, i) <==>
              start <= i < end && Gated(sqrt, prepared, ego, config, i)
    {
      EligibleExactly(sqrt, prepared, ego, previous, config, forward, i);
    }
    hide Eligible;
    var gated := GatedIn(sqrt, prepared, ego, config, start, end);
    if gated == [] {
      return None;
    }
    var distances := seq(|gated|, j requires 0 <= j < |gated| => DistanceAt(sqrt, prepared, ego, gated[j]));
    var best := FirstSmallest(distances);
    r := Some(gated[best]);
    forall i: nat | i < |prepared.points| && Eligible(sqrt, prepared, ego, previous, config, forward, i)
      ensures DistanceAt(sqrt, prepared, ego, gated[best]) <= DistanceAt(sqrt, prepared, ego, i)
      ensures i < gated[best] ==> DistanceAt(sqrt, prepared, ego, gated[best]) < DistanceAt(sqrt, prepared, ego, i)
    {
      var j :| 0 <= j < |gated| && gated[j] == i;
      assert distances[best] <= distances[j];
      assert i < gated[best] ==> j < best;
    }
  }

  function ForwardDistance(speed: real, config: PlannerConfig): real {
    Max(config.nearestForward, Max(speed, 0.0) * config.nearestForwardTime)
  }

  /** The search distance is the greater of the configured one and what the vehicle drives in the configured time. */
  lemma ForwardExactly(speed: real, config: PlannerConfig)
    ensures var f, driven := ForwardDistance(speed, config), (if speed > 0.0 then speed else 0.0) * config.nearestForwardTime;
            f >= config.nearestForward && f >= driven && (f == config.nearestForward || f == driven)
  {
  }

  // ----- the window

  function HorizonDistance(speed: real, config: PlannerConfig): real {
    var v, decel := Max(0.0, speed), Max(Abs(config.maxDecel), 0.001);
    Max(config.lookahead, v * v / (2.0 * decel) + v * Max(config.latency, 0.0) + Max(config.stoppingMargin, 0.0))
  }

  function WindowStart(d: seq<real>, ego: nat, config: PlannerConfig): nat
    requires ego < |d| && Sorted(d)
  {
    var last := Right(d, Max(0.0, d[ego] - Max(config.backward, 0.0)));
    if last < 1 then 0 else last - 1
  }

  function WindowEnd(d: seq<real>, ego: nat, speed: real, config: PlannerConfig): nat
    requires ego < |d| && Sorted(d)
  {
    var first := Left(d, Min(d[|d| - 1], d[ego] + HorizonDistance(speed, config)));
    if first < |d| - 1 then first else |d| - 1
  }

  /** The horizon is the greater of the lookahead and the stopping distance with latency and margin. */
  lemma HorizonExactly(speed: real, config: PlannerConfig)
    ensures var v, decel := Max(0.0, speed), Max(Abs(config.maxDecel), 0.001);
            var h := HorizonDistance(speed, config);
            && v * v / (2.0 * decel) >= 0.0 && v * Max(config.latency, 0.0) >= 0.0 && h >= 0.0
            && h >= v * v / (2.0 * decel) + v * Max(config.latency, 0.0) + Max(config.stoppingMargin, 0.0)
            && h >= config.lookahead
            && (h == config.lookahead
                || h == v * v / (2.0 * decel) + v * Max(config.latency, 0.0) + Max(config.stoppingMargin, 0.0))
  {
    var v, decel := Max(0.0, speed), Max(Abs(config.maxDecel), 0.001);
    NonNegativeProduct(v, v);
    NonNegativeProduct(v, Max(config.latency, 0.0));
    NonNegativeQuotient(v * v, 2.0 * decel);
  }

  lemma NonNegativeQuotient(x: real, y: real)
    requires x >= 0.0 && y > 0.0
    ensures x / y >= 0.0
  {
  }

  /** The window starts at the last point that is far enough behind, and at or before the vehicle. */
  lemma WindowBehind(d: seq<real>, ego: nat, config: PlannerConfig)
    requires ego < |d| && Sorted(d) && Increasing(d) && d[0] == 0.0
    ensures var start, behind := WindowStart(d, ego, config), Max(0.0, d[ego] - Max(config.backward, 0.0));
            && start <= ego && d[start] <= behind <= d[ego]
            && forall i :: start < i < |d| ==> behind < d[i]
  {
    var start := WindowStart(d, ego, config);
    assert d[0] <= d[ego];
    InOrder(d, start, ego);
  }

  /** The window ends at or after the vehicle, at the goal or a whole horizon ahead. */
  lemma WindowAhead(d: seq<real>, ego: nat, speed: real, config: PlannerConfig)
    requires ego < |d| && Sorted(d) && Increasing(d)
    ensures var end, horizon := WindowEnd(d, ego, speed, config), HorizonDistance(speed, config);
            && ego <= end < |d|
            && (end == |d| - 1 || d[end] - d[ego] >= horizon)
            && forall i :: ego <= i < end ==> d[i] - d[ego] < horizon
  {
    HorizonExactly(speed, config);
    hide HorizonDistance;
    var end := WindowEnd(d, ego, speed, config);
    assert d[ego] <= d[|d| - 1];
    InOrder(d, ego, end);
  }

  /** The window holds the vehicle, and the goal or the whole horizon, which covers stopping. */
  lemma WindowCovers(d: seq<real>, ego: nat, speed: real, config: PlannerConfig)
    requires ego < |d| && Sorted(d) && Increasing(d) && d[0] == 0.0
    ensures var start, end := WindowStart(d, ego, config), WindowEnd(d, ego, speed, config);
            var v, decel := Max(0.0, speed), Max(Abs(config.maxDecel), 0.001);
            && start <= ego <= end < |d|
            && (end == |d| - 1
                || d[end] - d[ego] >= v * v / (2.0 * decel) + v * Max(config.latency, 0.0) + Max(config.stoppingMargin, 0.0))
  {
    HorizonExactly(speed, config);
    WindowBehind(d, ego, config);
    WindowAhead(d, ego, speed, config);
  }

  /** The window has two points or more exactly when it can reach ahead or behind. */
  lemma WindowHasTwoPoints(d: seq<real>, ego: nat, speed: real, config: PlannerConfig)
    requires ego < |d| && Sorted(d) && Increasing(d) && d[0] == 0.0
    ensures WindowStart(d, ego, config) < WindowEnd(d, ego, speed, config) <==>
            (HorizonDistance(speed, config) > 0.0 && ego < |d| - 1) || (config.backward > 0.0 && ego > 0)
  {
    WindowBehind(d, ego, config);
    WindowAhead(d, ego, speed, config);
    HorizonExactly(speed, config);
    hide HorizonDistance, WindowStart;
    assert d[0] <= d[ego] <= d[|d| - 1];
    var start, behind := WindowStart(d, ego, config), Max(0.0, d[ego] - Max(config.backward, 0.0));
    assert start < ego <==> behind < d[ego];
    var ahead := Min(d[|d| - 1], d[ego] + HorizonDistance(speed, config));
    assert ego < WindowEnd(d, ego, speed, config) <==> d[ego] < ahead;
  }

  // ----- building the local trajectory

  /** What one cycle publishes: nothing, or the window with its envelope. */
  datatype Local = Local(points: seq<TrajectoryPoint>, nearest: Option<nat>, goal: bool)

  /** The points of the window around point `k`, with their envelope. */
  ghost predicate IsWindow(sqrt: Sqrt, prepared: Prepared, k: nat, speed: real, config: PlannerConfig,
                           limit: Option<real>, local: Local)
    requires k < |prepared.points| == |prepared.distances| && Sorted(prepared.distances)
  {
    var d := prepared.distances;
    var start, end := WindowStart(d, k, config), WindowEnd(d, k, speed, config);
    && start <= end
    && local.goal == (end == |d| - 1)
    && if start == end then local.points == []
       else Enveloped(sqrt, prepared.points[start..end + 1], speed, config, local.goal, limit, local.points)
  }

  ghost predicate IsLocal(sqrt: Sqrt, prepared: Prepared, ego: Ego, speed: real, config: PlannerConfig,
                          previous: Option<nat>, limit: Option<real>, local: Local)
    requires |prepared.points| == |ego.headingErrors| == |prepared.distances| > 0 && Sorted(prepared.distances)
  {
    && Selected(sqrt, prepared, ego, previous, config, Some(ForwardDistance(speed, config)), local.nearest)
    && match local.nearest
       case None => local.points == [] && !local.goal
       case Some(k) => IsWindow(sqrt, prepared, k, speed, config, limit, local)
  }

  method CutWindow(sqrt: Sqrt, prepared: Prepared, k: nat, speed: real, config: PlannerConfig, limit: Option<real>)
    returns (local: Local)
    requires IsSqrt(sqrt) && k < |prepared.points| == |prepared.distances| && config.maxSpeed >= 0.0
    requires Sorted(prepared.distances) && Increasing(prepared.distances) && prepared.distances[0] == 0.0
    ensures local.nearest == Some(k) && IsWindow(sqrt, prepared, k, speed, config, limit, local)
  {
    hide HorizonDistance, Enveloped, IsSqrt, Sorted, Increasing;
    var d := prepared.distances;
    WindowBehind(d, k, config);
    WindowAhead(d, k, speed, config);
    var last := FindRight(d, Max(0.0, d[k] - Max(config.backward, 0.0)));
    var start := if last < 1 then 0 else last - 1;
    var first := FindLeft(d, Min(d[|d| - 1], d[k] + HorizonDistance(speed, config)));
    var end := if first < |d| - 1 then first else |d| - 1;
    var goal := end == |d| - 1;
    var slice := prepared.points[start..end + 1];
    if |slice| < 2 {
      return Local([], Some(k), goal);
    }
    var points := EnvelopeOf(sqrt, slice, speed, config, goal, limit);
    local := Local(points, Some(k), goal);
  }

  method EnvelopeOf(sqrt: Sqrt, slice: seq<TrajectoryPoint>, speed: real, config: PlannerConfig, goal: bool,
                    limit: Option<real>) returns (out: seq<TrajectoryPoint>)
    requires IsSqrt(sqrt) && slice != [] && config.maxSpeed >= 0.0
    ensures Enveloped(sqrt, slice, speed, config, goal, limit, out)
  {
    hide IsSqrt, Enveloped;
    var points := new TrajectoryPoint[|slice|](i requires 0 <= i < |slice| => slice[i]);
    assert points[..] == slice;
    ApplyEnvelope(sqrt, points, speed, config, goal, limit);
    out := points[..];
  }

  method BuildLocal(sqrt: Sqrt, prepared: Prepared, ego: Ego, speed: real, config: PlannerConfig,
                    previous: Option<nat>, limit: Option<real>) returns (local: Local)
    requires IsSqrt(sqrt) && |prepared.points| == |ego.headingErrors| == |prepared.distances| && config.maxSpeed >= 0.0
    requires prepared.points != [] && Sorted(prepared.distances)
    requires Increasing(prepared.distances) && prepared.distances[0] == 0.0
    ensures IsLocal(sqrt, prepared, ego, speed, config, previous, limit, local)
  {
    hide IsWindow, Sorted, Increasing, IsSqrt, ForwardDistance;
    var nearest := SelectProgressIndex(sqrt, prepared, ego, previous, config, Some(ForwardDistance(speed, config)));
    if nearest.None? {
      return Local([], None, false);
    }
    local := CutWindow(sqrt, prepared, nearest.value, speed, config, limit);
  }

  /**
    * What a cycle publishes: the points from the last one far enough behind to the goal or a
    * stopping distance ahead, in place; no faster than the configured maximum, the received limit
    * and the course; within both accelerations; stopped at the goal; and starting at a positive
    * speed exactly when the vehicle moves or may depart.
    */
  lemma PublishedIsSafe(sqrt: Sqrt, prepared: Prepared, ego: Ego, speed: real, config: PlannerConfig,
                        previous: Option<nat>, limit: Option<real>, local: Local) returns (start: nat, end: nat)
    requires IsSqrt(sqrt) && ValidPrepared(sqrt, prepared) && |prepared.points| == |ego.headingErrors|
    requires config.maxSpeed >= 0.0 && config.maxAccel >= 0.0
    requires |prepared.distances| == |prepared.points| && Sorted(prepared.distances)
    requires IsLocal(sqrt, prepared, ego, speed, config, previous, limit, local) && local.points != []
    ensures local.nearest.Some? && start <= local.nearest.value <= end < |prepared.points|
    ensures |local.points| == end - start + 1 >= 2
    ensures forall i :: 0 <= i < |local.points| ==>
              && local.points[i].position == prepared.points[start + i].position
              && 0.0 <= local.points[i].speed <= config.maxSpeed
              && (limit.Some? ==> local.points[i].speed <= Max(0.0, limit.value))
              && (i > 0 ==> local.points[i].speed <= Max(0.0, prepared.points[start + i].speed))
              && -Abs(config.maxDecel) <= local.points[i].acceleration <= config.maxAccel
    ensures local.goal <==> end == |prepared.points| - 1
    ensures local.goal ==> local.points[|local.points| - 1].speed == 0.0
    ensures var d, v := prepared.distances, Max(0.0, speed);
            var decel := Max(Abs(config.maxDecel), 0.001);
            local.goal || d[end] - d[local.nearest.value]
                          >= v * v / (2.0 * decel) + v * Max(config.latency, 0.0) + Max(config.stoppingMargin, 0.0)
    ensures config.maxDecel != 0.0 ==>
              (local.points[0].speed > 0.0 <==> Departs(prepared.points[start..end + 1], speed, config, limit))
  {
    hide Selected, Enveloped, Departs, IsSqrt, ValidPrepared, WindowStart, WindowEnd, IsWindow, Sorted, Max;
    PreparedIncreases(sqrt, prepared);
    SelectedInRange(sqrt, prepared, ego, previous, config, Some(ForwardDistance(speed, config)), local.nearest);
    var d, k := prepared.distances, local.nearest.value;
    start, end := WindowStart(d, k, config), WindowEnd(d, k, speed, config);
    WindowCovers(d, k, speed, config);
    WindowOf(sqrt, prepared, k, speed, config, limit, local);
    var slice := prepared.points[start..end + 1];
    EnvelopeWithinLimits(sqrt, slice, speed, config, local.goal, limit, local.points);
    if config.maxDecel != 0.0 {
      SlicePositive(sqrt, prepared, start, end);
      DepartureNeverDeadlocks(sqrt, slice, speed, config, local.goal, limit, local.points);
    }
  }

  lemma SelectedInRange(sqrt: Sqrt, prepared: Prepared, ego: Ego, previous: Option<nat>, config: PlannerConfig,
                        forward: Option<real>, r: Option<nat>)
    requires |prepared.points| == |ego.headingErrors| == |prepared.distances| > 0
    requires Selected(sqrt, prepared, ego, previous, config, forward, r)
    ensures r.Some? ==> r.value < |prepared.points|
  {
    hide Eligible;
  }

  lemma WindowOf(sqrt: Sqrt, prepared: Prepared, k: nat, speed: real, config: PlannerConfig, limit: Option<real>, local: Local)
    requires k < |prepared.points| == |prepared.distances| && Sorted(prepared.distances) && local.points != []
    requires IsWindow(sqrt, prepared, k, speed, config, limit, local)
    ensures var d := prepared.distances;
            var start, end := WindowStart(d, k, config), WindowEnd(d, k, speed, config);
            && start < end < |d| && local.goal == (end == |d| - 1)
            && Enveloped(sqrt, prepared.points[start..end + 1], speed, config, local.goal, limit, local.points)
  {
    hide Enveloped;
  }

  lemma SlicePositive(sqrt: Sqrt, prepared: Prepared, start: nat, end: nat)
    requires ValidPrepared(sqrt, prepared) && start <= end < |prepared.points|
    ensures PositiveSegments(sqrt, Positions(prepared.points[start..end + 1]))
  {
    hide DistanceXY;
    var points := prepared.points;
    var slice := points[start..end + 1];
    forall i | 0 <= i < |slice| - 1
      ensures DistanceXY(sqrt, Positions(slice)[i], Positions(slice)[i + 1]) > 0.0
    {
      assert Positions(slice)[i] == Positions(points)[start + i] && Positions(slice)[i + 1] == Positions(points)[start + i + 1];
      assert DistanceXY(sqrt, Positions(points)[start + i], Positions(points)[start + i + 1]) > 0.0;
    }
  }
}
