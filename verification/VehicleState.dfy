/** Status-bit predicates, gear contract, command limits, and the emergency and Hall monitors. */
module VehicleState {
  import opened Basics

  // ----- status bits

  /** A telemetry status word, and the bits of it that the node looks at. */
  datatype Status = Status(
    word: int, faultLatched: bool, commandTimeout: bool, rcOverride: bool, stopOverride: bool, autoEnabled: bool,
    hallValid: bool, hallFault: bool, rcInputFault: bool, standstill: bool, frameError: bool)
  {
    predicate ClearBlocked() {
      commandTimeout || rcOverride || stopOverride
    }

    predicate FaultClearPermitted() {
      faultLatched && !rcInputFault && autoEnabled && !ClearBlocked()
    }

    function ReportedMode(): ControlMode {
      if rcOverride then Manual
      else if autoEnabled && !(commandTimeout || stopOverride || faultLatched || hallFault || rcInputFault || frameError)
      then Autonomous
      else NoCommand
    }
  }

  datatype ControlMode = NoCommand | Autonomous | Manual

  const NO_STATUS := Status(0, false, false, false, false, false, false, false, false, false, false)

  /** `word & mask != 0` for a single-bit mask. */
  predicate Bit(word: int, mask: int)
    requires mask > 0
  {
    (word / mask) % 2 == 1
  }

  function ReadStatus(word: int): Status {
    Status(word, Bit(word, 0x1), Bit(word, 0x2), Bit(word, 0x4), Bit(word, 0x8), Bit(word, 0x20), Bit(word, 0x40),
           Bit(word, 0x80), Bit(word, 0x400), Bit(word, 0x1000), Bit(word, 0x4_0000))
  }

  /** A word from its bits, the lowest first, as the chassis composes it. */
  function WordOf(bits: seq<bool>): nat {
    if bits == [] then 0 else (if bits[0] then 1 else 0) + 2 * WordOf(bits[1..])
  }

  function Power(n: nat): (p: nat)
    ensures p > 0
  {
    if n == 0 then 1 else 2 * Power(n - 1)
  }

  lemma {:induction false} BitOfWord(bits: seq<bool>, i: nat)
    requires i < |bits|
    ensures Bit(WordOf(bits), Power(i)) <==> bits[i]
  {
    var rest := WordOf(bits[1..]);
    if i > 0 {
      BitOfWord(bits[1..], i - 1);
      HalfQuotient(WordOf(bits), rest, Power(i - 1));
    }
  }

  lemma HalfQuotient(word: nat, half: nat, mask: nat)
    requires mask > 0 && 2 * half <= word <= 2 * half + 1
    ensures word / (2 * mask) == half / mask
  {
    var q, r := half / mask, half % mask;
    assert half == mask * q + r;
    assert word == (2 * mask) * q + (word - 2 * half + 2 * r);
    QuotientUnique(word, 2 * mask, q);
  }

  lemma QuotientUnique(word: nat, mask: nat, q: int)
    requires mask > 0 && 0 <= word - mask * q < mask
    ensures word / mask == q
  {
    var d := word / mask - q;
    assert mask * (word / mask) == mask * q + mask * d;
    OnlyZero(mask, d);
  }

  lemma OnlyZero(mask: int, d: int)
    requires mask > 0 && -mask < mask * d < mask
    ensures d == 0
  {
  }

  /** Every state is read from the bit the chassis reports it in, whatever the other bits are. */
  lemma StatusReadsBack(bits: seq<bool>)
    requires |bits| >= 19
    ensures var s := ReadStatus(WordOf(bits));
            && s.word == WordOf(bits)
            && s.faultLatched == bits[0] && s.commandTimeout == bits[1] && s.rcOverride == bits[2]
            && s.stopOverride == bits[3] && s.autoEnabled == bits[5] && s.hallValid == bits[6] && s.hallFault == bits[7]
            && s.rcInputFault == bits[10] && s.standstill == bits[12] && s.frameError == bits[18]
  {
    hide Bit, WordOf;
    var w := WordOf(bits);
    assert Power(0) == 0x1 && Power(1) == 0x2 && Power(2) == 0x4 && Power(3) == 0x8 && Power(5) == 0x20;
    assert Power(6) == 0x40 && Power(7) == 0x80 && Power(10) == 0x400 && Power(12) == 0x1000 && Power(18) == 0x4_0000;
    forall i: nat | i < 19 ensures Bit(w, Power(i)) <==> bits[i] { BitOfWord(bits, i); }
  }

  /** Every word that a frame carries has bits. */
  lemma {:induction false} BitsOfWord(word: nat, size: nat) returns (bits: seq<bool>)
    requires word < Power(size)
    ensures |bits| == size && WordOf(bits) == word
  {
    if size == 0 {
      bits := [];
    } else {
      var rest := BitsOfWord(word / 2, size - 1);
      bits := [word % 2 == 1] + rest;
      assert bits[1..] == rest;
    }
  }

  /** What the node concludes from a status word, told by its bits. */
  lemma WordMeans(bits: seq<bool>)
    requires |bits| >= 19
    ensures var s := ReadStatus(WordOf(bits));
            && (s.ReportedMode() == Manual <==> bits[2])
            && (s.ReportedMode() == Autonomous <==>
                  bits[5] && !bits[0] && !bits[1] && !bits[2] && !bits[3] && !bits[7] && !bits[10] && !bits[18])
            && (s.FaultClearPermitted() <==> bits[0] && bits[5] && !bits[1] && !bits[2] && !bits[3] && !bits[10])
  {
    hide ReadStatus;
    StatusReadsBack(bits);
  }

  datatype VelocityState = Unavailable | MeasuredMotion | ConfirmedStandstill | Inconsistent

  function VelocityFeedback(status: Status, hallSpeed: real): VelocityState {
    if status.hallValid && !status.standstill && hallSpeed != 0.0 then MeasuredMotion
    else if !status.hallValid && status.standstill && hallSpeed == 0.0 then ConfirmedStandstill
    else if !status.hallValid && !status.standstill && hallSpeed == 0.0 then Unavailable
    else Inconsistent
  }

  // ----- gear and command limits

  datatype Gear = Park | Neutral | Drive | Reverse

  predicate GearAllows(gear: Gear, speed: real) {
    match gear
    case Drive => speed >= 0.0
    case Reverse => speed <= 0.0
    case Park => speed == 0.0
    case Neutral => speed == 0.0
  }

  datatype Limits = Limits(maximumSpeed: Double, minimumSpeed: Double, maximumSteering: Double) {
    predicate Valid() {
      && maximumSpeed.Finite? && minimumSpeed.Finite? && maximumSteering.Finite?
      && maximumSpeed.value > 0.0 && 0.0 <= minimumSpeed.value <= maximumSpeed.value
      && maximumSteering.value > 0.0
    }
  }

  datatype Setpoint = Setpoint(speed: real, steering: real)

  /** `None` where the source throws: non-finite control values or invalid limits. */
  function ControlToMotion(velocity: Double, steering: Double, limits: Limits): (r: Option<Setpoint>)
    ensures r.None? <==>
            || velocity.NotFinite? || steering.NotFinite? || limits.maximumSpeed.NotFinite? || limits.minimumSpeed.NotFinite?
            || limits.maximumSteering.NotFinite? || limits.maximumSpeed.value <= 0.0 || limits.minimumSpeed.value < 0.0
            || limits.minimumSpeed.value > limits.maximumSpeed.value || limits.maximumSteering.value <= 0.0
    ensures r.Some? ==> WithinLimits(limits, r.value.speed, r.value.steering)
    ensures r.Some? && WithinLimits(limits, velocity.value, steering.value)
            ==> r.value == Setpoint(velocity.value, steering.value)
    ensures r.Some? && velocity.value >= limits.maximumSpeed.value ==> r.value.speed == limits.maximumSpeed.value
    ensures r.Some? && velocity.value <= -limits.maximumSpeed.value ==> r.value.speed == -limits.maximumSpeed.value
    ensures r.Some? && Abs(velocity.value) < limits.minimumSpeed.value ==> r.value.speed == 0.0
    ensures r.Some? && limits.minimumSpeed.value <= Abs(velocity.value) <= limits.maximumSpeed.value
            ==> r.value.speed == velocity.value
    ensures r.Some? && steering.value >= limits.maximumSteering.value ==> r.value.steering == limits.maximumSteering.value
    ensures r.Some? && steering.value <= -limits.maximumSteering.value ==> r.value.steering == -limits.maximumSteering.value
    ensures r.Some? && Abs(steering.value) <= limits.maximumSteering.value ==> r.value.steering == steering.value
  {
    if velocity.NotFinite? || steering.NotFinite? || !limits.Valid() then None
    else
      var clamped := Clamp(velocity.value, -limits.maximumSpeed.value, limits.maximumSpeed.value);
      var speed := if clamped != 0.0 && Abs(clamped) < limits.minimumSpeed.value then 0.0 else clamped;
      Some(Setpoint(speed, Clamp(steering.value, -limits.maximumSteering.value, limits.maximumSteering.value)))
  }

  /** A speed that is zero or inside the configured band, and a steering angle in range. */
  predicate WithinLimits(limits: Limits, speed: real, steering: real) {
    limits.Valid()
    && (speed == 0.0 || limits.minimumSpeed.value <= Abs(speed) <= limits.maximumSpeed.value)
    && Abs(steering) <= limits.maximumSteering.value
  }

  // ----- emergency status

  datatype EmergencyState = EmergencyState(lastMs: int, received: bool, active: bool) {
    predicate FreshAndClear(nowMs: int, timeoutMs: int) {
      received && !active && lastMs <= nowMs && nowMs - lastMs <= timeoutMs
    }
  }

  class EmergencyStatusMonitor {
    const timeoutMs: int
    var lastObservationMs: int
    var received: bool
    var active: bool

    constructor (timeoutMs: int)
      requires timeoutMs > 0
      ensures this.timeoutMs == timeoutMs && State() == EmergencyState(0, false, false)
    {
      this.timeoutMs := timeoutMs;
      lastObservationMs, received, active := 0, false, false;
    }

    function State(): EmergencyState
      reads this
    {
      EmergencyState(lastObservationMs, received, active)
    }

    method Observe(isActive: bool, nowMs: int)
      modifies this
      ensures State() == EmergencyState(nowMs, true, isActive)
    {
      lastObservationMs := nowMs;
      received := true;
      active := isActive;
    }

    method FreshAndClear(nowMs: int) returns (clear: bool)
      ensures clear == State().FreshAndClear(nowMs, timeoutMs)
    {
      if !received || active || nowMs < lastObservationMs {
        return false;
      }
      return nowMs - lastObservationMs <= timeoutMs;
    }
  }

  // ----- Hall feedback

  datatype HallDecision = NotRequired | Acquiring | Valid | Fault

  datatype HallState = HallState(
    motionStartedMs: int, lossStartedMs: int, direction: int,
    motionExpected: bool, acquired: bool, lossActive: bool)

  const HALL_IDLE := HallState(0, 0, 0, false, false, false)

  function Sign(speed: real): int {
    if speed > 0.0 then 1 else if speed < 0.0 then -1 else 0
  }

  function NoteCommand(h: HallState, speed: real, nowMs: int): HallState {
    if Sign(speed) == 0 then HALL_IDLE
    else if !h.motionExpected || Sign(speed) != h.direction then
      h.(motionStartedMs := nowMs, direction := Sign(speed), motionExpected := true,
         acquired := false, lossActive := false)
    else h
  }

  datatype HallTimeouts = HallTimeouts(acquisitionMs: int, lossMs: int)

  function ObserveHall(h: HallState, valid: bool, nowMs: int, timeouts: HallTimeouts): (HallState, HallDecision) {
    if !h.motionExpected then (h, NotRequired)
    else if valid then (h.(acquired := true, lossActive := false), Valid)
    else if nowMs < h.motionStartedMs then (h, Fault)
    else if !h.acquired then
      (h, if nowMs - h.motionStartedMs >= timeouts.acquisitionMs then Fault else Acquiring)
    else if !h.lossActive then (h.(lossStartedMs := nowMs, lossActive := true), Acquiring)
    else if nowMs < h.lossStartedMs || nowMs - h.lossStartedMs >= timeouts.lossMs then (h, Fault)
    else (h, Acquiring)
  }

  class HallFeedbackMonitor {
    const timeouts: HallTimeouts
    var motionStartedMs: int
    var lossStartedMs: int
    var commandDirection: int
    var motionExpected: bool
    var feedbackAcquired: bool
    var lossActive: bool

    constructor (timeouts: HallTimeouts)
      requires timeouts.acquisitionMs > 0 && timeouts.lossMs > 0
      ensures this.timeouts == timeouts && State() == HALL_IDLE
    {
      this.timeouts := timeouts;
      motionStartedMs, lossStartedMs, commandDirection := 0, 0, 0;
      motionExpected, feedbackAcquired, lossActive := false, false, false;
    }

    function State(): HallState
      reads this
    {
      HallState(motionStartedMs, lossStartedMs, commandDirection, motionExpected, feedbackAcquired, lossActive)
    }

    method NoteEffectiveCommand(speed: real, nowMs: int)
      modifies this
      ensures State() == NoteCommand(old(State()), speed, nowMs)
    {
      var direction := if speed > 0.0 then 1 else if speed < 0.0 then -1 else 0;
      if direction == 0 {
        Reset();
        return;
      }
      if !motionExpected || direction != commandDirection {
        motionStartedMs := nowMs;
        commandDirection := direction;
        motionExpected := true;
        feedbackAcquired := false;
        lossActive := false;
      }
    }

    method Observe(valid: bool, nowMs: int) returns (decision: HallDecision)
      modifies this
      ensures (State(), decision) == ObserveHall(old(State()), valid, nowMs, timeouts)
    {
      if !motionExpected {
        return NotRequired;
      }
      if valid {
        feedbackAcquired := true;
        lossActive := false;
        return Valid;
      }
      if nowMs < motionStartedMs {
        return Fault;
      }
      if !feedbackAcquired {
        return if nowMs - motionStartedMs >= timeouts.acquisitionMs then Fault else Acquiring;
      }
      if !lossActive {
        lossStartedMs := nowMs;
        lossActive := true;
        return Acquiring;
      }
      if nowMs < lossStartedMs || nowMs - lossStartedMs >= timeouts.lossMs {
        return Fault;
      }
      return Acquiring;
    }

    method Reset()
      modifies this
      ensures State() == HALL_IDLE
    {
      motionStartedMs := 0;
      commandDirection := 0;
      motionExpected := false;
      feedbackAcquired := false;
      lossStartedMs := 0;
      lossActive := false;
    }
  }
}
