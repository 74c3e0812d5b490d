/**
  * The forward/backward speed sweep of both planners, on squared speeds: moving from one
  * point to the next may raise the square by `rise` and lower it by `fall`.
  */
module SpeedSweep {
  import opened Basics

  type Profile = seq<real>

  // ----- the passes as functions

  function Forward(q: Profile, rise: seq<real>, i: nat): real
    requires i < |q| == |rise| + 1
  {
    if i == 0 then q[0] else Min(q[i], Max(0.0, Forward(q, rise, i - 1) + rise[i - 1]))
  }

  function Backward(q: Profile, fall: seq<real>, i: nat): real
    requires i < |q| == |fall| + 1
    decreases |q| - i
  {
    if i == |q| - 1 then q[i] else Min(q[i], Max(0.0, Backward(q, fall, i + 1) + fall[i]))
  }

  function ForwardPass(q: Profile, rise: seq<real>): Profile
    requires |q| == |rise| + 1
  {
    seq(|q|, i requires 0 <= i < |q| => Forward(q, rise, i))
  }

  function BackwardPass(q: Profile, fall: seq<real>): Profile
    requires |q| == |fall| + 1
  {
    seq(|q|, i requires 0 <= i < |q| => Backward(q, fall, i))
  }

  function ZeroLast(q: Profile, zero: bool): (r: Profile)
    requires |q| > 0
    ensures |r| == |q|
  {
    if zero then q[|q| - 1 := 0.0] else q
  }

  function ZeroFirst(q: Profile, zero: bool): (r: Profile)
    requires |q| > 0
    ensures |r| == |q|
  {
    if zero then q[0 := 0.0] else q
  }

  /** One iteration of the sweep, with the endpoints the caller keeps at zero. */
  function Iteration(q: Profile, rise: seq<real>, fall: seq<real>, first: bool, last: bool): (r: Profile)
    requires |q| == |rise| + 1 == |fall| + 1
    ensures |r| == |q|
  {
    ZeroFirst(BackwardPass(ZeroLast(ForwardPass(q, rise), last), fall), first)
  }

  function Iterate(q: Profile, rise: seq<real>, fall: seq<real>, first: bool, last: bool, times: nat): (r: Profile)
    requires |q| == |rise| + 1 == |fall| + 1
    ensures |r| == |q|
  {
    if times == 0 then q
    else Iteration(Iterate(q, rise, fall, first, last, times - 1), rise, fall, first, last)
  }

  // ----- feasibility and optimality

  /** Below the caps, rising by at most `rise` and falling by at most `fall` per step. */
  predicate Feasible(p: Profile, cap: Profile, rise: seq<real>, fall: seq<real>) {
    && |p| == |cap| == |rise| + 1 == |fall| + 1
    && (forall i :: 0 <= i < |p| ==> p[i] <= cap[i])
    && (forall i :: 0 <= i < |rise| ==> p[i + 1] <= p[i] + rise[i])
    && (forall i :: 0 <= i < |fall| ==> p[i] <= p[i + 1] + fall[i])
  }

  predicate NonNegative(s: seq<real>) {
    forall i :: 0 <= i < |s| ==> s[i] >= 0.0
  }

  /** The endpoints that are kept at zero start there. */
  predicate EndsZeroed(cap: Profile, first: bool, last: bool) {
    |cap| > 0 && (first ==> cap[0] == 0.0) && (last ==> cap[|cap| - 1] == 0.0)
  }

  lemma {:induction false} ForwardBounds(cap: Profile, rise: seq<real>, i: nat)
    requires i < |cap| == |rise| + 1 && NonNegative(cap) && NonNegative(rise)
    ensures 0.0 <= Forward(cap, rise, i) <= cap[i]
    ensures i > 0 ==> Forward(cap, rise, i) <= Forward(cap, rise, i - 1) + rise[i - 1]
  {
    if i > 0 {
      ForwardBounds(cap, rise, i - 1);
    }
  }

  lemma {:induction false} BackwardBounds(q: Profile, fall: seq<real>, i: nat)
    requires i < |q| == |fall| + 1 && NonNegative(q) && NonNegative(fall)
    ensures 0.0 <= Backward(q, fall, i) <= q[i]
    ensures i < |fall| ==> Backward(q, fall, i) <= Backward(q, fall, i + 1) + fall[i]
    decreases |q| - i
  {
    if i < |fall| {
      BackwardBounds(q, fall, i + 1);
    }
  }

  /** Lowering for deceleration keeps every acceleration bound. */
  lemma BackwardKeepsRise(q: Profile, rise: seq<real>, fall: seq<real>, i: nat)
    requires i < |rise| && |q| == |rise| + 1 == |fall| + 1
    requires NonNegative(q) && NonNegative(rise) && NonNegative(fall)
    requires q[i + 1] <= q[i] + rise[i]
    ensures Backward(q, fall, i + 1) <= Backward(q, fall, i) + rise[i]
  {
    BackwardBounds(q, fall, i + 1);
  }

  lemma {:induction false} ForwardIsGreatest(p: Profile, cap: Profile, rise: seq<real>, fall: seq<real>, i: nat)
    requires Feasible(p, cap, rise, fall) && i < |p|
    ensures p[i] <= Forward(cap, rise, i)
  {
    if i > 0 {
      ForwardIsGreatest(p, cap, rise, fall, i - 1);
    }
  }

  lemma {:induction false} BackwardIsGreatest(p: Profile, q: Profile, rise: seq<real>, fall: seq<real>, i: nat)
    requires Feasible(p, q, rise, fall) && i < |p|
    ensures p[i] <= Backward(q, fall, i)
    decreases |p| - i
  {
    if i < |fall| {
      BackwardIsGreatest(p, q, rise, fall, i + 1);
    }
  }

  /** The sweep without endpoint resets. */
  function Sweep(cap: Profile, rise: seq<real>, fall: seq<real>): (r: Profile)
    requires |cap| == |rise| + 1 == |fall| + 1
    ensures |r| == |cap|
  {
    BackwardPass(ForwardPass(cap, rise), fall)
  }

  lemma SweepFeasible(cap: Profile, rise: seq<real>, fall: seq<real>)
    requires |cap| == |rise| + 1 == |fall| + 1
    requires NonNegative(cap) && NonNegative(rise) && NonNegative(fall)
    ensures Feasible(Sweep(cap, rise, fall), cap, rise, fall) && NonNegative(Sweep(cap, rise, fall))
  {
    var f := ForwardPass(cap, rise);
    assert NonNegative(f) by {
      forall i | 0 <= i < |f| ensures f[i] >= 0.0 { ForwardBounds(cap, rise, i); }
    }
    var b := Sweep(cap, rise, fall);
    forall i | 0 <= i < |b| ensures 0.0 <= b[i] <= cap[i] {
      ForwardBounds(cap, rise, i);
      BackwardBounds(f, fall, i);
    }
    forall i | 0 <= i < |rise| ensures b[i + 1] <= b[i] + rise[i] && b[i] <= b[i + 1] + fall[i] {
      ForwardBounds(cap, rise, i + 1);
      BackwardBounds(f, fall, i);
      BackwardKeepsRise(f, rise, fall, i);
    }
  }

  /** No feasible profile exceeds the sweep at any point. */
  lemma SweepGreatest(p: Profile, cap: Profile, rise: seq<real>, fall: seq<real>, i: nat)
    requires Feasible(p, cap, rise, fall) && i < |p|
    ensures p[i] <= Sweep(cap, rise, fall)[i]
  {
    var f := ForwardPass(cap, rise);
    forall k | 0 <= k < |p| ensures p[k] <= f[k] { ForwardIsGreatest(p, cap, rise, fall, k); }
    BackwardIsGreatest(p, f, rise, fall, i);
  }

  /** A profile that already respects both limits is left alone. */
  lemma {:induction false} SweepFixes(p: Profile, rise: seq<real>, fall: seq<real>)
    requires Feasible(p, p, rise, fall) && NonNegative(p) && NonNegative(rise) && NonNegative(fall)
    ensures ForwardPass(p, rise) == p && BackwardPass(p, fall) == p && Sweep(p, rise, fall) == p
  {
    forall i | 0 <= i < |p| ensures Forward(p, rise, i) == p[i] && Backward(p, fall, i) == p[i] {
      ForwardIsGreatest(p, p, rise, fall, i);
      ForwardBounds(p, rise, i);
      BackwardIsGreatest(p, p, rise, fall, i);
      BackwardBounds(p, fall, i);
    }
    assert ForwardPass(p, rise) == p;
  }

  /**
    * One iteration reaches the optimum: further iterations and the repeated endpoint resets
    * change nothing.
    */
  lemma {:induction false} OneIterationSuffices(
    cap: Profile, rise: seq<real>, fall: seq<real>, first: bool, last: bool, times: nat)
    requires |cap| == |rise| + 1 == |fall| + 1 && times > 0
    requires NonNegative(cap) && NonNegative(rise) && NonNegative(fall) && EndsZeroed(cap, first, last)
    ensures Iterate(cap, rise, fall, first, last, times) == Sweep(cap, rise, fall)
  {
    var best := Sweep(cap, rise, fall);
    SweepFeasible(cap, rise, fall);
    if times == 1 {
      assert Iterate(cap, rise, fall, first, last, 0) == cap;
      ResetsChangeNothing(cap, rise, fall, first, last);
    } else {
      OneIterationSuffices(cap, rise, fall, first, last, times - 1);
      assert Feasible(best, best, rise, fall) && EndsZeroed(best, first, last);
      SweepFixes(best, rise, fall);
      ResetsChangeNothing(best, rise, fall, first, last);
    }
  }

  lemma ResetsChangeNothing(cap: Profile, rise: seq<real>, fall: seq<real>, first: bool, last: bool)
    requires |cap| == |rise| + 1 == |fall| + 1
    requires NonNegative(cap) && NonNegative(rise) && NonNegative(fall) && EndsZeroed(cap, first, last)
    ensures Iteration(cap, rise, fall, first, last) == Sweep(cap, rise, fall)
  {
    var f := ForwardPass(cap, rise);
    ForwardBounds(cap, rise, |cap| - 1);
    assert ZeroLast(f, last) == f;
    SweepFeasible(cap, rise, fall);
    assert ZeroFirst(Sweep(cap, rise, fall), first) == Sweep(cap, rise, fall);
  }

  // ----- what holds whatever the signs of the steps

  /** Iterations only lower a profile, keep it non-negative, and zero the ends they reset. */
  lemma {:induction false} IterateLowers(
    q: Profile, rise: seq<real>, fall: seq<real>, first: bool, last: bool, times: nat, i: nat)
    requires |q| == |rise| + 1 == |fall| + 1 && NonNegative(q) && i < |q|
    ensures 0.0 <= Iterate(q, rise, fall, first, last, times)[i] <= q[i]
    ensures times > 0 && first ==> Iterate(q, rise, fall, first, last, times)[0] == 0.0
    ensures times > 0 && last ==> Iterate(q, rise, fall, first, last, times)[|q| - 1] == 0.0
    decreases times
  {
    if times > 0 {
      var before := Iterate(q, rise, fall, first, last, times - 1);
      forall k | 0 <= k < |q| ensures 0.0 <= before[k] <= q[k] {
        IterateLowers(q, rise, fall, first, last, times - 1, k);
      }
      IterationLowers(before, rise, fall, first, last, i);
    }
  }

  lemma IterationLowers(q: Profile, rise: seq<real>, fall: seq<real>, first: bool, last: bool, i: nat)
    requires |q| == |rise| + 1 == |fall| + 1 && NonNegative(q) && i < |q|
    ensures var r := Iteration(q, rise, fall, first, last);
            0.0 <= r[i] <= q[i] && (first ==> r[0] == 0.0) && (last ==> r[|q| - 1] == 0.0)
  {
    var zeroed := ZeroLast(ForwardPass(q, rise), last);
    assert 0.0 <= zeroed[i] <= q[i];
    assert 0.0 <= Backward(zeroed, fall, i) <= zeroed[i];
  }

  /** From a standstill that nothing may raise, nothing moves, and nothing that cannot brake to one. */
  lemma {:induction false} ForwardStaysZero(q: Profile, rise: seq<real>, i: nat)
    requires i < |q| == |rise| + 1 && NonNegative(q) && q[0] == 0.0
    requires forall k :: 0 <= k < |rise| ==> rise[k] <= 0.0
    ensures Forward(q, rise, i) == 0.0
  {
    if i > 0 {
      ForwardStaysZero(q, rise, i - 1);
    }
  }

  lemma {:induction false} BackwardStaysZero(q: Profile, fall: seq<real>, i: nat)
    requires i < |q| == |fall| + 1 && NonNegative(q) && q[|q| - 1] == 0.0
    requires forall k :: 0 <= k < |fall| ==> fall[k] <= 0.0
    ensures Backward(q, fall, i) == 0.0
    decreases |q| - i
  {
    if i < |q| - 1 {
      BackwardStaysZero(q, fall, i + 1);
    }
  }

  lemma IterateStaysZero(q: Profile, rise: seq<real>, fall: seq<real>, first: bool, last: bool, times: nat, i: nat)
    requires i < |q| == |rise| + 1 == |fall| + 1 && NonNegative(q) && q[0] == 0.0 && q[|q| - 1] == 0.0 && times > 0
    requires (forall k :: 0 <= k < |rise| ==> rise[k] <= 0.0) || (forall k :: 0 <= k < |fall| ==> fall[k] <= 0.0)
    ensures Iterate(q, rise, fall, first, last, times)[i] == 0.0
  {
    var before := Iterate(q, rise, fall, first, last, times - 1);
    forall k | 0 <= k < |q| ensures 0.0 <= before[k] <= q[k] {
      IterateLowers(q, rise, fall, first, last, times - 1, k);
    }
    var zeroed := ZeroLast(ForwardPass(before, rise), last);
    assert 0.0 <= Backward(zeroed, fall, i) <= zeroed[i];
    if forall k :: 0 <= k < |rise| ==> rise[k] <= 0.0 {
      ForwardStaysZero(before, rise, i);
    } else {
      BackwardStaysZero(zeroed, fall, i);
    }
  }

  // ----- closed form

  /** What a constant acceleration adds to the squared speed over a distance. */
  function Gain(factor: real, d: real): real {
    2.0 * factor * d
  }

  function Scaled(ds: seq<real>, factor: real): (r: seq<real>)
    ensures |r| == |ds|
  {
    seq(|ds|, i requires 0 <= i < |ds| => Gain(factor, ds[i]))
  }

  /** Arc length up to point `i`. */
  function Arc(ds: seq<real>, i: nat): real
    requires i <= |ds|
  {
    if i == 0 then 0.0 else Arc(ds, i - 1) + ds[i - 1]
  }

  /** The bound that the cap at `j` puts on point `i`. */
  function Reach(cap: Profile, ds: seq<real>, accel: real, decel: real, j: nat, i: nat): real
    requires |cap| == |ds| + 1 && i < |cap| && j < |cap|
  {
    if j <= i then cap[j] + 2.0 * accel * (Arc(ds, i) - Arc(ds, j))
    else cap[j] + 2.0 * decel * (Arc(ds, j) - Arc(ds, i))
  }

  lemma Distributes(factor: real, x: real, y: real, z: real)
    ensures 2.0 * factor * ((x + z) - y) == 2.0 * factor * (x - y) + 2.0 * factor * z
    ensures 2.0 * factor * (x - (y - z)) == 2.0 * factor * (x - y) + 2.0 * factor * z
  {
  }

  lemma ReachSelf(cap: Profile, ds: seq<real>, accel: real, decel: real, i: nat)
    requires i < |cap| == |ds| + 1
    ensures Reach(cap, ds, accel, decel, i, i) == cap[i]
  {
    assert Arc(ds, i) - Arc(ds, i) == 0.0;
  }

  /** Moving one point to the right: the bound grows by `rise`, or shrinks by `fall`. */
  lemma ReachStep(cap: Profile, ds: seq<real>, accel: real, decel: real, j: nat, i: nat)
    requires |cap| == |ds| + 1 && i < |ds| && j < |cap|
    ensures j <= i ==> Reach(cap, ds, accel, decel, j, i + 1)
                       == Reach(cap, ds, accel, decel, j, i) + Scaled(ds, accel)[i]
    ensures j > i ==> Reach(cap, ds, accel, decel, j, i)
                      == Reach(cap, ds, accel, decel, j, i + 1) + Scaled(ds, decel)[i]
  {
    ReachSelf(cap, ds, accel, decel, i);
    ReachSelf(cap, ds, accel, decel, i + 1);
    if j <= i {
      Distributes(accel, Arc(ds, i), Arc(ds, j), ds[i]);
    } else {
      Distributes(decel, Arc(ds, j), Arc(ds, i + 1), ds[i]);
    }
  }

  /** A feasible profile is below every reach. */
  lemma {:induction false} FeasibleBelowReach(
    p: Profile, cap: Profile, ds: seq<real>, accel: real, decel: real, j: nat, i: nat)
    requires Feasible(p, cap, Scaled(ds, accel), Scaled(ds, decel)) && i < |p| && j < |p|
    ensures p[i] <= Reach(cap, ds, accel, decel, j, i)
    decreases if j <= i then i - j else j - i
  {
    ReachSelf(cap, ds, accel, decel, i);
    if j < i {
      FeasibleBelowReach(p, cap, ds, accel, decel, j, i - 1);
      ReachStep(cap, ds, accel, decel, j, i - 1);
    } else if i < j {
      FeasibleBelowReach(p, cap, ds, accel, decel, j, i + 1);
      ReachStep(cap, ds, accel, decel, j, i);
    }
  }

  lemma {:induction false} ForwardAttains(cap: Profile, ds: seq<real>, accel: real, decel: real, i: nat) returns (j: nat)
    requires i < |cap| == |ds| + 1 && NonNegative(cap) && NonNegative(Scaled(ds, accel))
    ensures j <= i && Forward(cap, Scaled(ds, accel), i) == Reach(cap, ds, accel, decel, j, i)
  {
    j := i;
    ReachSelf(cap, ds, accel, decel, i);
    if i > 0 && Forward(cap, Scaled(ds, accel), i) != cap[i] {
      j := ForwardAttains(cap, ds, accel, decel, i - 1);
      ForwardBounds(cap, Scaled(ds, accel), i - 1);
      ReachStep(cap, ds, accel, decel, j, i - 1);
    }
  }

  /** A point limited by its right neighbour attains whatever reach the neighbour attains. */
  lemma AttainsFromRight(p: Profile, cap: Profile, ds: seq<real>, accel: real, decel: real, i: nat, j: nat)
    requires |cap| == |ds| + 1 && i < |ds| && j < |cap|
    requires NonNegative(Scaled(ds, accel)) && Feasible(p, cap, Scaled(ds, accel), Scaled(ds, decel))
    requires NonNegative(Scaled(ds, decel))
    requires p[i] == p[i + 1] + Scaled(ds, decel)[i] && p[i + 1] == Reach(cap, ds, accel, decel, j, i + 1)
    ensures p[i] == Reach(cap, ds, accel, decel, j, i)
  {
    var x, y := Reach(cap, ds, accel, decel, j, i), Reach(cap, ds, accel, decel, j, i + 1);
    var rise, fall := Scaled(ds, accel)[i], Scaled(ds, decel)[i];
    ReachStep(cap, ds, accel, decel, j, i);
    FeasibleBelowReach(p, cap, ds, accel, decel, j, i);
    assert rise >= 0.0 && fall >= 0.0;
  }

  lemma BackwardCases(q: Profile, fall: seq<real>, i: nat)
    requires i < |fall| && |q| == |fall| + 1 && NonNegative(q) && NonNegative(fall)
    ensures var b := BackwardPass(q, fall); b[i] == q[i] || b[i] == b[i + 1] + fall[i]
  {
    BackwardBounds(q, fall, i + 1);
  }

  /** Some reach is attained at every point of the sweep. */
  lemma {:induction false} SweepAttains(cap: Profile, ds: seq<real>, accel: real, decel: real, i: nat) returns (j: nat)
    requires i < |cap| == |ds| + 1
    requires NonNegative(cap) && NonNegative(Scaled(ds, accel)) && NonNegative(Scaled(ds, decel))
    ensures j < |cap| && Sweep(cap, Scaled(ds, accel), Scaled(ds, decel))[i] == Reach(cap, ds, accel, decel, j, i)
    decreases |cap| - i
  {
    hide Reach, Scaled;
    var rise, fall := Scaled(ds, accel), Scaled(ds, decel);
    var f, b := ForwardPass(cap, rise), Sweep(cap, rise, fall);
    if b[i] == f[i] {
      j := ForwardAttains(cap, ds, accel, decel, i);
    } else {
      forall k | 0 <= k < |f| ensures f[k] >= 0.0 { ForwardBounds(cap, rise, k); }
      assert i < |fall|;
      BackwardCases(f, fall, i);
      SweepFeasible(cap, rise, fall);
      j := SweepAttains(cap, ds, accel, decel, i + 1);
      AttainsFromRight(b, cap, ds, accel, decel, i, j);
    }
  }

  /**
    * Closed form: the profile after any positive number of iterations is, at every point,
    * the minimum over all points `j` of what the cap at `j` allows there.
    */
  lemma SweepClosedForm(
    cap: Profile, ds: seq<real>, accel: real, decel: real, first: bool, last: bool, times: nat, i: nat)
    returns (j: nat)
    requires i < |cap| == |ds| + 1 && times > 0
    requires NonNegative(cap) && NonNegative(ds) && accel >= 0.0 && decel >= 0.0 && EndsZeroed(cap, first, last)
    ensures var v := Iterate(cap, Scaled(ds, accel), Scaled(ds, decel), first, last, times)[i];
            && (forall k: nat :: k < |cap| ==> v <= Reach(cap, ds, accel, decel, k, i))
            && j < |cap| && v == Reach(cap, ds, accel, decel, j, i)
  {
    ScaledNonNegative(ds, accel);
    ScaledNonNegative(ds, decel);
    var rise, fall := Scaled(ds, accel), Scaled(ds, decel);
    OneIterationSuffices(cap, rise, fall, first, last, times);
    SweepFeasible(cap, rise, fall);
    forall k: nat | k < |cap| ensures Sweep(cap, rise, fall)[i] <= Reach(cap, ds, accel, decel, k, i) {
      FeasibleBelowReach(Sweep(cap, rise, fall), cap, ds, accel, decel, k, i);
    }
    j := SweepAttains(cap, ds, accel, decel, i);
  }

  lemma ScaledNonNegative(ds: seq<real>, factor: real)
    requires NonNegative(ds) && factor >= 0.0
    ensures NonNegative(Scaled(ds, factor))
  {
    forall i | 0 <= i < |ds| ensures 2.0 * factor * ds[i] >= 0.0 {
      ProductNonNegative(2.0 * factor, ds[i]);
    }
  }

  lemma ProductPositive(x: real, y: real)
    requires x > 0.0 && y > 0.0
    ensures x * y > 0.0
  {
  }

  lemma ProductNonNegative(x: real, y: real)
    requires x >= 0.0 && y >= 0.0
    ensures x * y >= 0.0
  {
  }

  // ----- accelerations between points, over distances floored away from zero

  function AccelerationAt(q: Profile, ds: seq<real>, floor: real, i: nat): real
    requires |q| == |ds| + 1 && i < |q| && floor > 0.0
  {
    if i == 0 then 0.0 else (q[i] - q[i - 1]) / (2.0 * Max(ds[i - 1], floor))
  }

  function Accelerations(q: Profile, ds: seq<real>, floor: real): (r: seq<real>)
    requires |q| == |ds| + 1 && floor > 0.0
    ensures |r| == |q|
  {
    seq(|q|, i requires 0 <= i < |q| => AccelerationAt(q, ds, floor, i))
  }

  /** A feasible profile's accelerations respect both limits, whatever the floor does. */
  lemma AccelerationBounded(
    q: Profile, cap: Profile, ds: seq<real>, accel: real, decel: real, floor: real, i: nat)
    requires NonNegative(ds) && accel >= 0.0 && decel >= 0.0 && floor > 0.0
    requires Feasible(q, cap, Scaled(ds, accel), Scaled(ds, decel)) && i < |q|
    ensures -decel <= AccelerationAt(q, ds, floor, i) <= accel
  {
    hide Gain;
    if i > 0 {
      assert q[i] <= q[i - 1] + Scaled(ds, accel)[i - 1];
      assert q[i - 1] <= q[i] + Scaled(ds, decel)[i - 1];
      FlooredRatio(q[i] - q[i - 1], ds[i - 1], accel, decel, floor);
    }
  }

  lemma FlooredRatio(x: real, d: real, accel: real, decel: real, floor: real)
    requires d >= 0.0 && accel >= 0.0 && decel >= 0.0 && floor > 0.0 && -Gain(decel, d) <= x <= Gain(accel, d)
    ensures -decel <= x / (2.0 * Max(d, floor)) <= accel
  {
    var m := 2.0 * Max(d, floor);
    ProductMonotone(2.0 * d, m, accel);
    ProductMonotone(2.0 * d, m, decel);
    QuotientBounds(x, m, accel, decel);
  }

  lemma QuotientBounds(x: real, m: real, accel: real, decel: real)
    requires m > 0.0 && -(m * decel) <= x <= m * accel
    ensures -decel <= x / m <= accel
  {
    var r := x / m;
    assert r * m == x;
    assert (r - accel) * m == r * m - m * accel;
    assert (-decel - r) * m == -(m * decel) - r * m;
    if r > accel { ProductPositive(r - accel, m); }
    if r < -decel { ProductPositive(-decel - r, m); }
  }

  lemma ProductMonotone(x: real, y: real, k: real)
    requires x <= y && k >= 0.0
    ensures x * k <= y * k
  {
    ProductNonNegative(y - x, k);
    assert (y - x) * k == y * k - x * k;
  }

  // ----- the loops, in place, on speeds

  function Sq(x: real): real {
    x * x
  }

  function Squares(v: seq<real>): (r: Profile)
    ensures |r| == |v|
  {
    seq(|v|, i requires 0 <= i < |v| => Sq(v[i]))
  }

  /** `min(speed, sqrt(max(0, neighbour ** 2 + gain)))`: a limit on the speed is one on its square. */
  method LimitSpeed(sqrt: real -> real, speed: real, neighbour: real, gain: real) returns (limited: real)
    requires IsSqrt(sqrt) && speed >= 0.0
    ensures limited >= 0.0 && Sq(limited) == Min(Sq(speed), Max(0.0, Sq(neighbour) + gain))
  {
    var limit := sqrt(Max(0.0, neighbour * neighbour + gain));
    limited := Min(speed, limit);
    SquareMonotone(speed, limit);
    SquareMonotone(limit, speed);
  }

  lemma SquareMonotone(v: real, w: real)
    requires 0.0 <= v && 0.0 <= w
    ensures v <= w <==> Sq(v) <= Sq(w)
  {
    if v <= w {
      assert v * v <= v * w <= w * w;
    } else {
      var difference, sum := v - w, v + w;
      ProductPositive(difference, sum);
      assert v * v - w * w == difference * sum;
    }
  }

  method ForwardInPlace(sqrt: real -> real, speeds: array<real>, ds: seq<real>, accel: real)
    requires IsSqrt(sqrt) && speeds.Length == |ds| + 1 && NonNegative(speeds[..])
    modifies speeds
    ensures NonNegative(speeds[..])
    ensures Squares(speeds[..]) == ForwardPass(Squares(old(speeds[..])), Scaled(ds, accel))
  {
    hide Sq, Gain, ForwardPass;
    ghost var v, q, rise := speeds[..], Squares(speeds[..]), Scaled(ds, accel);
    ghost var target := ForwardPass(q, rise);
    ForwardStep(q, rise, 0);
    for index := 1 to speeds.Length
      invariant forall k :: 0 <= k < index ==> speeds[k] >= 0.0 && Sq(speeds[k]) == target[k]
      invariant forall k :: index <= k < speeds.Length ==> speeds[k] == v[k]
    {
      ForwardStep(q, rise, index);
      var limited := LimitSpeed(sqrt, speeds[index], speeds[index - 1], Gain(accel, ds[index - 1]));
      speeds[index] := limited;
    }
  }

  lemma ForwardStep(q: Profile, rise: seq<real>, i: nat)
    requires i < |q| == |rise| + 1
    ensures var f := ForwardPass(q, rise);
            |f| == |q| && f[i] == if i == 0 then q[0] else Min(q[i], Max(0.0, f[i - 1] + rise[i - 1]))
  {
  }

  lemma BackwardStep(q: Profile, fall: seq<real>, i: nat)
    requires i < |q| == |fall| + 1
    ensures var b := BackwardPass(q, fall);
            |b| == |q| && b[i] == if i == |fall| then q[i] else Min(q[i], Max(0.0, b[i + 1] + fall[i]))
  {
  }

  method BackwardInPlace(sqrt: real -> real, speeds: array<real>, ds: seq<real>, decel: real)
    requires IsSqrt(sqrt) && speeds.Length == |ds| + 1 && NonNegative(speeds[..])
    modifies speeds
    ensures NonNegative(speeds[..])
    ensures Squares(speeds[..]) == BackwardPass(Squares(old(speeds[..])), Scaled(ds, decel))
  {
    hide Sq, Gain, BackwardPass;
    ghost var v, q, fall := speeds[..], Squares(speeds[..]), Scaled(ds, decel);
    ghost var target := BackwardPass(q, fall);
    BackwardStep(q, fall, |ds|);
    for index := |ds| downto 0
      invariant forall k :: index <= k < speeds.Length ==> speeds[k] >= 0.0 && Sq(speeds[k]) == target[k]
      invariant forall k :: 0 <= k < index ==> speeds[k] == v[k]
    {
      BackwardStep(q, fall, index);
      var limited := LimitSpeed(sqrt, speeds[index], speeds[index + 1], Gain(decel, ds[index]));
      speeds[index] := limited;
    }
  }

  lemma ZeroSquare()
    ensures Sq(0.0) == 0.0
  {
  }

  /** The nested loops of both planners; they differ in the count and in the endpoints reset. */
  method SweepInPlace(sqrt: real -> real, speeds: array<real>, ds: seq<real>, accel: real, decel: real,
                      first: bool, last: bool, times: nat)
    requires IsSqrt(sqrt) && speeds.Length == |ds| + 1 && NonNegative(speeds[..])
    modifies speeds
    ensures NonNegative(speeds[..])
    ensures Squares(speeds[..])
         == Iterate(Squares(old(speeds[..])), Scaled(ds, accel), Scaled(ds, decel), first, last, times)
  {
    hide Sq;
    ZeroSquare();
    ghost var q, rise, fall := Squares(speeds[..]), Scaled(ds, accel), Scaled(ds, decel);
    for turn := 0 to times
      invariant NonNegative(speeds[..])
      invariant Squares(speeds[..]) == Iterate(q, rise, fall, first, last, turn)
    {
      ghost var before := Squares(speeds[..]);
      ForwardInPlace(sqrt, speeds, ds, accel);
      if last {
        speeds[speeds.Length - 1] := 0.0;
      }
      assert Squares(speeds[..]) == ZeroLast(ForwardPass(before, rise), last);
      BackwardInPlace(sqrt, speeds, ds, decel);
      ghost var lowered := Squares(speeds[..]);
      if first {
        speeds[0] := 0.0;
      }
      assert Squares(speeds[..]) == ZeroFirst(lowered, first);
    }
  }
}
