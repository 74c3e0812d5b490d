/** The latest message of a topic, with the time it arrived and the time its source gave it. */
module TimedInput {
  import opened Basics

  const STAMP_SLACK := 0.000000001
  const FUTURE_TOLERANCE := 0.05

  datatype Timed<M> = Timed(
    message: Option<M>, receipt: real, source: real, sequence: nat, outOfOrder: nat, fromFuture: nat)
  {
    /** The state after an update at time `now`, and whether the message was taken. */
    function Updated(m: M, now: real, stamp: real): (Timed<M>, bool) {
      if stamp < 0.0 then (this, false)
      else if stamp + STAMP_SLACK < source then (this.(outOfOrder := outOfOrder + 1), false)
      else if stamp > now + FUTURE_TOLERANCE then (this.(fromFuture := fromFuture + 1), false)
      else (this.(message := Some(m), receipt := now, source := stamp, sequence := sequence + 1), true)
    }

    predicate Fresh(now: real, timeout: real) {
      && message.Some?
      && now + FUTURE_TOLERANCE >= receipt && now + FUTURE_TOLERANCE >= source
      && now - receipt <= timeout && now - source <= timeout
    }

    /** The rejection counters survive. */
    function Cleared(): Timed<M> {
      Timed(None, -1.0, -1.0, 0, outOfOrder, fromFuture)
    }
  }

  /**
    * A message is taken exactly if its stamp is not negative, at most 1e-9 older than the stored
    * one and at most 0.05 in the future; one that is not changes nothing but the counter of its fault.
    */
  lemma UpdateExactly<M>(before: Timed<M>, m: M, now: real, stamp: real)
    ensures var (after, taken) := before.Updated(m, now, stamp);
            var inOrder := stamp >= before.source - 0.000000001;
            && (taken <==> stamp >= 0.0 && inOrder && stamp <= now + 0.05)
            && (taken ==> after.message == Some(m) && after.receipt == now && after.source == stamp
                          && after.sequence == before.sequence + 1)
            && (!taken ==> after.message == before.message && after.receipt == before.receipt
                           && after.source == before.source && after.sequence == before.sequence)
            && after.outOfOrder == before.outOfOrder + (if stamp >= 0.0 && !inOrder then 1 else 0)
            && after.fromFuture == before.fromFuture + (if stamp >= 0.0 && inOrder && stamp > now + 0.05 then 1 else 0)
  {
  }

  /** What later updates, at times of a clock that does not go back, can do to a tracker. */
  predicate Follows<M>(before: Timed<M>, after: Timed<M>, since: real, now: real) {
    && after.sequence >= before.sequence
    && after.source >= before.source - (after.sequence - before.sequence) as real * STAMP_SLACK
    && (after.receipt == before.receipt || since <= after.receipt <= now)
    && (before.message.Some? ==> after.message.Some?)
  }

  lemma UpdateFollows<M>(before: Timed<M>, middle: Timed<M>, since: real, m: M, now: real, stamp: real, until: real)
    requires Follows(before, middle, since, now) && since <= now <= until
    ensures Follows(before, middle.Updated(m, now, stamp).0, since, until)
  {
    var after := middle.Updated(m, now, stamp).0;
    if after.sequence > middle.sequence {
      var n := middle.sequence - before.sequence;
      assert (n + 1) as real * STAMP_SLACK == n as real * STAMP_SLACK + STAMP_SLACK;
    }
  }

  /**
    * A tracker that was fresh at `since` is, up to `period` later, at most that much staler; its
    * source stamp may also have crept back, by the ordering slack once per message taken.
    */
  lemma StalenessGrows<M>(before: Timed<M>, after: Timed<M>, since: real, now: real, timeout: real, period: real)
    requires before.Fresh(since, timeout) && Follows(before, after, since, now)
    requires since <= now <= since + period && timeout >= 0.0
    ensures after.message.Some? && now - after.receipt <= timeout + period
    ensures now - after.source <= timeout + period + (after.sequence - before.sequence) as real * STAMP_SLACK
  {
  }

  /** The stored source stamp falls exactly when a message with an older stamp is taken. */
  lemma SourceFallsExactly<M>(before: Timed<M>, m: M, now: real, stamp: real)
    ensures var (after, taken) := before.Updated(m, now, stamp);
            after.source < before.source <==> taken && stamp < before.source
  {
  }

  /** The slack is real: one message taken can put the source age beyond the timeout and the period. */
  lemma SlackIsReal()
    ensures var before := Timed(Some(0), 10.0, 10.0, 1, 0, 0);
            var (after, taken) := before.Updated(1, 10.25, 10.0 - STAMP_SLACK);
            before.Fresh(10.2, 0.2) && taken && 10.25 - after.source > 0.2 + 0.05
  {
  }

  class TimedInput<M> {
    var message: Option<M>
    var receiptSec: real
    var sourceStampSec: real
    var sequence: nat
    var rejectedOutOfOrder: nat
    var rejectedFuture: nat

    function State(): Timed<M>
      reads this
    {
      Timed(message, receiptSec, sourceStampSec, sequence, rejectedOutOfOrder, rejectedFuture)
    }

    constructor ()
      ensures State() == Timed(None, -1.0, -1.0, 0, 0, 0)
    {
      message, receiptSec, sourceStampSec := None, -1.0, -1.0;
      sequence, rejectedOutOfOrder, rejectedFuture := 0, 0, 0;
    }

    /** Without a source stamp the arrival time stands in for it; a stamp that is not finite changes nothing. */
    method Update(m: M, receipt: real, sourceStamp: Option<Double>) returns (taken: bool)
      modifies this
      ensures (State(), taken) == match if sourceStamp.Some? then sourceStamp.value else Finite(receipt)
                                  case NotFinite => (old(State()), false)
                                  case Finite(stamp) => old(State()).Updated(m, receipt, stamp)
    {
      var source := if sourceStamp.Some? then sourceStamp.value else Finite(receipt);
      if source.NotFinite? || source.value < 0.0 {
        return false;
      }
      var stamp := source.value;
      if stamp + STAMP_SLACK < sourceStampSec {
        rejectedOutOfOrder := rejectedOutOfOrder + 1;
        return false;
      }
      if stamp > receipt + FUTURE_TOLERANCE {
        rejectedFuture := rejectedFuture + 1;
        return false;
      }
      message, receiptSec, sourceStampSec := Some(m), receipt, stamp;
      sequence := sequence + 1;
      return true;
    }

    predicate Fresh(now: real, timeout: real)
      reads this
      ensures Fresh(now, timeout) == State().Fresh(now, timeout)
    {
      && message.Some?
      && now + FUTURE_TOLERANCE >= receiptSec && now + FUTURE_TOLERANCE >= sourceStampSec
      && now - receiptSec <= timeout && now - sourceStampSec <= timeout
    }

    method Clear()
      modifies this
      ensures State() == old(State()).Cleared()
    {
      message, receiptSec, sourceStampSec := None, -1.0, -1.0;
      sequence := 0;
    }
  }
}
