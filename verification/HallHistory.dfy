/** What the Hall monitor decides, stated on the history of commands, samples and resets. */
module HallHistory {
  import opened VehicleState

  datatype Event =
    | Command(speed: real, at: int)
    | Sample(valid: bool, at: int)
    | Reset

  /** The monitor's state after the first `n` events. */
  function StateAt(h: seq<Event>, n: nat, timeouts: HallTimeouts): HallState
    requires n <= |h|
  {
    if n == 0 then HALL_IDLE
    else
      var before := StateAt(h, n - 1, timeouts);
      match h[n - 1]
      case Command(speed, at) => NoteCommand(before, speed, at)
      case Sample(valid, at) => ObserveHall(before, valid, at, timeouts).0
      case Reset => HALL_IDLE
  }

  // ----- the history vocabulary

  /** The commanded direction of travel: that of the last command, 0 after a reset. */
  function Direction(h: seq<Event>, n: nat): int
    requires n <= |h|
  {
    if n == 0 then 0
    else
      match h[n - 1]
      case Command(speed, _) => Sign(speed)
      case Sample(_, _) => Direction(h, n - 1)
      case Reset => 0
  }

  /** Event `i` turned the commanded direction to its present, nonzero value. */
  ghost predicate MotionBegan(h: seq<Event>, n: nat, i: nat)
    requires n <= |h|
  {
    i < n && h[i].Command? && Direction(h, n) != 0 && Direction(h, i) != Direction(h, n)
    && forall k :: i < k <= n ==> Direction(h, k) == Direction(h, n)
  }

  ghost predicate ValidSampleIn(h: seq<Event>, from: nat, to: nat)
    requires to <= |h|
  {
    exists v :: from <= v < to && h[v].Sample? && h[v].valid
  }

  /** Event `k` is a sample that counts: a valid one, or one not from before the motion began at `i`. */
  predicate Counts(h: seq<Event>, i: nat, k: nat)
    requires i < |h| && k < |h| && h[i].Command?
  {
    h[k].Sample? && (h[k].valid || h[k].at >= h[i].at)
  }

  /** `f` is the first invalid sample that counts after the last valid one, all since event `i`. */
  ghost predicate LossBegan(h: seq<Event>, n: nat, i: nat, f: nat)
    requires n <= |h| && i < n && h[i].Command?
  {
    i < f < n && Counts(h, i, f) && !h[f].valid
    && !ValidSampleIn(h, f, n)
    && exists v: nat :: i < v < f && h[v].Sample? && h[v].valid && forall k: nat :: v < k < f ==> !Counts(h, i, k)
  }

  /** The specification: an invalid sample at `nowMs` is a fault. A clock behind a deadline's start is one at once. */
  ghost predicate Overdue(h: seq<Event>, n: nat, nowMs: int, timeouts: HallTimeouts)
    requires n <= |h|
  {
    exists i: nat :: MotionBegan(h, n, i)
      && (nowMs < h[i].at
          || if ValidSampleIn(h, i, n)
             then exists f: nat :: LossBegan(h, n, i, f) && (nowMs < h[f].at || nowMs - h[f].at >= timeouts.lossMs)
             else nowMs - h[i].at >= timeouts.acquisitionMs)
  }

  lemma MotionBeganUnique(h: seq<Event>, n: nat, i: nat, j: nat)
    requires n <= |h| && MotionBegan(h, n, i) && MotionBegan(h, n, j)
    ensures i == j
  {
  }

  lemma LossBeganUnique(h: seq<Event>, n: nat, i: nat, f: nat, g: nat)
    requires n <= |h| && i < n && h[i].Command? && LossBegan(h, n, i, f) && LossBegan(h, n, i, g)
    ensures f == g
  {
    var v: nat :| i < v < f && h[v].Sample? && h[v].valid && forall k: nat :: v < k < f ==> !Counts(h, i, k);
    var w: nat :| i < w < g && h[w].Sample? && h[w].valid && forall k: nat :: w < k < g ==> !Counts(h, i, k);
  }

  // ----- the state records the history

  /** The last sample that counts since event `i` was valid. */
  ghost predicate LastSampleValid(h: seq<Event>, n: nat, i: nat)
    requires n <= |h| && i < n && h[i].Command?
  {
    exists v: nat :: i < v < n && h[v].Sample? && h[v].valid && forall k: nat :: v < k < n ==> !Counts(h, i, k)
  }

  ghost predicate Records(h: seq<Event>, n: nat, i: nat, s: HallState)
    requires n <= |h|
  {
    MotionBegan(h, n, i) && s.motionStartedMs == h[i].at
    && (s.acquired <==> ValidSampleIn(h, i, n))
    && (s.lossActive ==> s.acquired && exists f: nat :: LossBegan(h, n, i, f) && s.lossStartedMs == h[f].at)
    && (s.acquired && !s.lossActive ==> LastSampleValid(h, n, i))
  }

  lemma {:induction false} StateRecordsHistory(h: seq<Event>, n: nat, timeouts: HallTimeouts) returns (i: nat)
    requires n <= |h|
    ensures var s := StateAt(h, n, timeouts);
            && s.direction == Direction(h, n) && (s.motionExpected <==> Direction(h, n) != 0)
            && (s.motionExpected ==> Records(h, n, i, s))
  {
    hide Records, MotionBegan;
    i := 0;
    if n > 0 {
      i := StateRecordsHistory(h, n - 1, timeouts);
      var before, s := StateAt(h, n - 1, timeouts), StateAt(h, n, timeouts);
      if s.motionExpected {
        if h[n - 1].Command? && Direction(h, n - 1) != Direction(h, n) {
          i := n - 1;
          RecordsBegin(h, n, s);
        } else {
          RecordsNext(h, n, i, before, timeouts);
        }
      }
    }
  }

  /** A command in a new direction. */
  lemma RecordsBegin(h: seq<Event>, n: nat, s: HallState)
    requires 0 < n <= |h| && h[n - 1].Command? && Direction(h, n) != 0 && Direction(h, n - 1) != Direction(h, n)
    requires s.motionStartedMs == h[n - 1].at && !s.acquired && !s.lossActive
    ensures Records(h, n, n - 1, s)
  {
  }

  /** One more command in the same direction, or one more sample. */
  lemma RecordsNext(h: seq<Event>, n: nat, i: nat, s: HallState, timeouts: HallTimeouts)
    requires 0 < n <= |h| && !h[n - 1].Reset?
    requires Records(h, n - 1, i, s) && s.motionExpected && s.direction == Direction(h, n - 1) == Direction(h, n)
    ensures Records(h, n, i, if h[n - 1].Sample? then ObserveHall(s, h[n - 1].valid, h[n - 1].at, timeouts).0 else s)
  {
    var e := h[n - 1];
    assert ValidSampleIn(h, i, n) <==> ValidSampleIn(h, i, n - 1) || (e.Sample? && e.valid);
    if !(e.Sample? && e.valid) {
      if s.lossActive {
        var f: nat :| LossBegan(h, n - 1, i, f) && s.lossStartedMs == h[f].at;
        assert LossBegan(h, n, i, f);
      } else if s.acquired {
        LastSampleStays(h, n, i);
      }
    }
  }

  lemma LastSampleStays(h: seq<Event>, n: nat, i: nat)
    requires 0 < n <= |h| && i < n - 1 && h[i].Command? && LastSampleValid(h, n - 1, i)
    requires !(h[n - 1].Sample? && h[n - 1].valid)
    ensures if Counts(h, i, n - 1) then LossBegan(h, n, i, n - 1) else LastSampleValid(h, n, i)
  {
    var m := n - 1;
    var v: nat :| i < v < m && h[v].Sample? && h[v].valid && forall k: nat :: v < k < m ==> !Counts(h, i, k);
  }

  /**
    * The monitor reports a fault for a sample at `nowMs` exactly when motion is expected,
    * the sample is invalid, and it is overdue: nothing valid since the motion began and
    * the acquisition timeout has elapsed, or the loss timeout has elapsed since the first
    * invalid sample after the last valid one. A clock that goes back behind the start of the
    * motion or of the loss is overdue at once.
    */
  lemma FaultExactlyWhenOverdue(h: seq<Event>, valid: bool, nowMs: int, timeouts: HallTimeouts)
    ensures ObserveHall(StateAt(h, |h|, timeouts), valid, nowMs, timeouts).1 == Fault
            <==> Direction(h, |h|) != 0 && !valid && Overdue(h, |h|, nowMs, timeouts)
  {
    var n, s := |h|, StateAt(h, |h|, timeouts);
    var i := StateRecordsHistory(h, n, timeouts);
    if s.motionExpected {
      assert forall j: nat :: MotionBegan(h, n, j) ==> j == i by {
        forall j: nat | MotionBegan(h, n, j) ensures j == i { MotionBeganUnique(h, n, i, j); }
      }
      if s.lossActive {
        var f: nat :| LossBegan(h, n, i, f) && s.lossStartedMs == h[f].at;
        forall g: nat | LossBegan(h, n, i, g) ensures g == f { LossBeganUnique(h, n, i, f, g); }
      } else if s.acquired {
        forall f: nat ensures !LossBegan(h, n, i, f) {
          var v: nat :| i < v < n && h[v].Sample? && h[v].valid && forall k: nat :: v < k < n ==> !Counts(h, i, k);
        }
      }
    } else {
      assert forall j: nat :: !MotionBegan(h, n, j);
    }
  }

  /** Commands in the direction already commanded leave every deadline where it was. */
  lemma {:induction false} SameDirectionPostponesNothing(h: seq<Event>, n: nat, m: nat, timeouts: HallTimeouts)
    requires n <= m <= |h| && Direction(h, n) != 0
    requires forall k :: n <= k < m ==> h[k].Command? && Sign(h[k].speed) == Direction(h, n)
    ensures StateAt(h, m, timeouts) == StateAt(h, n, timeouts) && Direction(h, m) == Direction(h, n)
  {
    if n < m {
      SameDirectionPostponesNothing(h, n, m - 1, timeouts);
      var i := StateRecordsHistory(h, n, timeouts);
    }
  }
}
