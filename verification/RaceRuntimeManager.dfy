/**
  * The race runtime on its mutable fields and trackers. Each callback is proved to make
  * exactly the step of `RaceRuntime`, so every theorem about runs is about this object.
  */
module RaceRuntimeManager {
  import opened Basics
  import opened TimedInput
  import opened RaceRuntime

  class RaceRuntimeManager {
    const cfg: Config
    const timedInputs: seq<TimedInput<Message>>

    var phase: Phase
    var startSec: real
    var lastNow: real
    var startRequested: bool
    var stopRequested: bool
    var activationArmed: bool
    var activationStamp: real
    var lastServiceCall: PerService<real>
    var pending: PerService<Call>
    var reason: string

    predicate Wired() {
      |timedInputs| == TOPICS && forall j, k :: 0 <= j < k < TOPICS ==> timedInputs[j] != timedInputs[k]
    }

    ghost function InputsNow(): Inputs
      requires Wired()
      reads timedInputs
    {
      seq(TOPICS, k requires 0 <= k < TOPICS reads timedInputs => timedInputs[k].State())
    }

    ghost function State(): Runtime
      requires Wired()
      reads this, timedInputs
    {
      Runtime(phase, startSec, lastNow, startRequested, stopRequested, activationArmed, activationStamp,
              lastServiceCall, pending, reason, InputsNow())
    }

    constructor (cfg: Config, now: real)
      ensures this.cfg == cfg && Wired() && State() == Start(cfg, now)
      ensures forall t :: t in timedInputs ==> fresh(t)
    {
      this.cfg := cfg;
      phase, startSec, lastNow := Idle, now, -1.0;
      startRequested, stopRequested := cfg.autoStart, false;
      activationArmed, activationStamp := false, -1.0;
      lastServiceCall, pending := PerService(-1.0, -1.0), PerService(NoCall, NoCall);
      reason := "WAITING_FOR_START";
      var trackers := NewTrackers();
      timedInputs := trackers;
    }

    static method NewTrackers() returns (trackers: seq<TimedInput<Message>>)
      ensures |trackers| == TOPICS
      ensures forall j, k :: 0 <= j < k < TOPICS ==> trackers[j] != trackers[k]
      ensures forall k :: 0 <= k < TOPICS ==> fresh(trackers[k]) && trackers[k].State() == UNSEEN
    {
      trackers := [];
      for n := 0 to TOPICS
        invariant |trackers| == n
        invariant forall j, k :: 0 <= j < k < n ==> trackers[j] != trackers[k]
        invariant forall k :: 0 <= k < n ==> fresh(trackers[k]) && trackers[k].State() == UNSEEN
      {
        var tracker := new TimedInput<Message>();
        trackers := trackers + [tracker];
      }
    }

    /** The abstract state, field by field. */
    lemma Fields()
      requires Wired()
      ensures State().phase == phase && State().startSec == startSec && State().lastNow == lastNow
      ensures State().startRequested == startRequested && State().stopRequested == stopRequested
      ensures State().armed == activationArmed && State().activationStamp == activationStamp
      ensures State().lastCall == lastServiceCall && State().pending == pending
      ensures forall k :: 0 <= k < TOPICS ==> State().inputs[k] == timedInputs[k].State()
    {
    }

    // ----- the trackers

    method Receive(m: Message, now: real, stamp: real)
      requires Wired()
      modifies timedInputs
      ensures State() == Step(cfg, old(State()), Event.Receive(m, now, stamp))
    {
      hide OnTick, RaceRuntime.OnReset;
      var _ := timedInputs[Topic(m)].Update(m, now, Some(Finite(stamp)));
      assert State().inputs == old(State()).inputs[Topic(m) := timedInputs[Topic(m)].State()];
    }

    method ClearTrackers()
      requires Wired()
      modifies timedInputs
      ensures State() == ClearInputs(old(State()))
    {
      for n := 0 to |timedInputs|
        invariant forall k :: 0 <= k < n ==> timedInputs[k].State() == old(timedInputs[k].State()).Cleared()
        invariant forall k :: n <= k < TOPICS ==> timedInputs[k].State() == old(timedInputs[k].State())
      {
        timedInputs[n].Clear();
      }
      assert State().inputs == ClearedInputs(old(State()).inputs);
    }

    function MessageAt(topic: nat): (m: Option<Message>)
      requires Wired() && topic < TOPICS
      reads timedInputs
      ensures m == Latest(InputsNow(), topic)
    {
      timedInputs[topic].message
    }

    function SpeedMps(): (speed: real)
      requires Wired()
      reads timedInputs
      ensures speed == SpeedOf(InputsNow())
    {
      match MessageAt(VELOCITY)
      case Some(Velocity(speed)) => speed
      case _ => 0.0
    }

    predicate IsFresh(topic: nat, now: real, timeout: real)
      requires Wired() && topic < TOPICS
      reads timedInputs
      ensures IsFresh(topic, now, timeout) == !Missing(InputsNow(), topic, now, timeout)
    {
      timedInputs[topic].Fresh(now, timeout)
    }

    method BaseFailure(now: real) returns (failure: Option<string>)
      requires Wired()
      ensures failure == RaceRuntime.BaseFailure(cfg, InputsNow(), now)
    {
      if MessageAt(LOCALIZATION) != Some(Localization(true)) {
        return Some("LOCALIZATION_NOT_INITIALIZED");
      }
      if !IsFresh(ODOMETRY, now, cfg.localizationTimeout) {
        return Some("LOCALIZATION_STALE");
      }
      if !IsFresh(TRAJECTORY, now, cfg.trajectoryTimeout) {
        return Some("TRAJECTORY_STALE");
      }
      match MessageAt(TRAJECTORY) {
        case Some(Trajectory(points)) =>
          if points < 2 {
            return Some("TRAJECTORY_INVALID");
          }
        case _ => return Some("TRAJECTORY_INVALID");
      }
      if !IsFresh(VELOCITY, now, cfg.velocityTimeout) {
        return Some("VELOCITY_STALE");
      }
      if !IsFresh(STEERING, now, cfg.vehicleTimeout) {
        return Some("STEERING_STALE");
      }
      if !IsFresh(GEAR, now, cfg.vehicleTimeout) {
        return Some("GEAR_STALE");
      }
      if !IsFresh(CONTROL_MODE, now, cfg.vehicleTimeout) {
        return Some("CONTROL_MODE_STALE");
      }
      return None;
    }

    method ActiveFailure(now: real) returns (failure: Option<string>)
      requires Wired()
      ensures failure == RaceRuntime.ActiveFailure(cfg, phase, InputsNow(), now)
    {
      hide RaceRuntime.BaseFailure;
      failure := BaseFailure(now);
      if failure.Some? {
        return;
      }
      if !IsFresh(RAW_CONTROL, now, cfg.controlTimeout) {
        return Some("RAW_CONTROL_STALE");
      }
      if !IsFresh(FINAL_CONTROL, now, cfg.controlTimeout) {
        return Some("FINAL_CONTROL_STALE");
      }
      if MessageAt(CONTROL_MODE) != Some(ModeReport(Autonomous))
         && !((phase == Stopping || phase == Fault) && Abs(SpeedMps()) < cfg.stopSpeed) {
        return Some("AUTONOMOUS_CONTROL_LOST");
      }
      return None;
    }

    // ----- services

    method OnStart() returns (success: bool)
      requires Wired()
      modifies `startRequested
      ensures (State(), success) == RaceRuntime.OnStart(old(State()))
    {
      if phase != Idle && phase != Ready {
        return false;
      }
      startRequested := true;
      return true;
    }

    method OnStop()
      requires Wired()
      modifies `stopRequested
      ensures State() == RaceRuntime.OnStop(old(State()))
    {
      stopRequested := true;
    }

    method OnReset(now: real) returns (success: bool)
      requires Wired()
      modifies this
      ensures (State(), success) == RaceRuntime.OnReset(cfg, old(State()), now)
    {
      hide State, RaceRuntime.ResetState;
      SameInputs();
      if Abs(SpeedMps()) >= cfg.stopSpeed {
        return false;
      }
      if MessageAt(CONTROL_MODE).Some? && !ReleasedMode(MessageAt(CONTROL_MODE)) {
        return false;
      }
      if MessageAt(ENGAGE) == Some(Engage(true)) {
        return false;
      }
      ResetState(now);
      return true;
    }

    lemma SameInputs()
      requires Wired()
      ensures State().inputs == InputsNow()
    {
    }

    method ResetState(now: real)
      requires Wired()
      modifies this
      ensures State() == RaceRuntime.ResetState(cfg, old(State()), now, false)
    {
      hide State, RaceRuntime.ResetPhase, RaceRuntime.ResetActivation, RaceRuntime.DropCalls;
      ResetPhase(now);
      ResetActivation();
      DropCalls();
    }

    method ResetPhase(now: real)
      requires Wired()
      modifies `phase, `startSec, `startRequested
      ensures State() == RaceRuntime.ResetPhase(cfg, old(State()), now)
    {
      phase := Idle;
      startSec := now;
      startRequested := cfg.autoStart;
    }

    method ResetActivation()
      requires Wired()
      modifies `stopRequested, `activationArmed, `activationStamp
      ensures State() == RaceRuntime.ResetActivation(old(State()))
    {
      stopRequested := false;
      activationArmed := false;
      activationStamp := -1.0;
    }

    method DropCalls()
      requires Wired()
      modifies `pending, `reason
      ensures State() == RaceRuntime.DropCalls(old(State()))
    {
      pending := PerService(NoCall, NoCall);
      reason := "RESET";
    }

    method SetReason(text: string)
      requires Wired()
      modifies `reason
      ensures State() == Reason(old(State()), text)
    {
      reason := text;
    }

    method Transition(next: Phase, text: string)
      requires Wired()
      modifies `phase, `reason
      ensures State() == Enter(old(State()), next, text)
    {
      if next != phase {
        phase := next;
      }
      reason := text;
    }

    method RaiseFault(text: string)
      requires Wired()
      modifies `phase, `reason
      ensures State() == Faulted(old(State()), text)
    {
      if phase == Fault {
        return;
      }
      Transition(Fault, text);
    }

    // ----- calls to other nodes

    method CallService(service: Service, request: Request, ready: bool, now: real)
      requires Wired()
      modifies `pending, `lastServiceCall
      ensures State() == RaceRuntime.CallService(cfg, old(State()), service, request, ready, now)
    {
      if pending.Get(service).InFlight? {
        return;
      }
      if now - lastServiceCall.Get(service) < cfg.serviceRetry || !ready {
        return;
      }
      pending := pending.Put(service, InFlight(request));
      lastServiceCall := lastServiceCall.Put(service, now);
    }

    /** The answer to a call arrives; answers to calls dropped by a reset reach nobody. */
    method OnReply(service: Service, success: bool)
      requires Wired()
      modifies `pending
      ensures State() == RaceRuntime.OnReply(old(State()), service, success)
    {
      match pending.Get(service) {
        case InFlight(request) => pending := pending.Put(service, Answered(request, success));
        case NoCall =>
        case Answered(_, _) =>
      }
    }

    // ----- the timer

    /** One tick, and the control permission it publishes. */
    method OnTimer(now: real, ready: PerService<bool>) returns (controlEnabled: bool)
      requires Wired()
      modifies this, timedInputs
      ensures State() == Step(cfg, old(State()), Tick(now, ready)) && controlEnabled == ControlEnabled(State())
    {
      hide State, Begun, RaceRuntime.TickIdle, RaceRuntime.TickReady, RaceRuntime.TickArming, RaceRuntime.TickActive,
           RaceRuntime.TickStopping, RaceRuntime.TickFault, RaceRuntime.OnReset, RaceRuntime.OnStart, OnMessage;
      BeginTick(now);
      Fields();
      match phase {
        case Idle => TickIdle(now);
        case Ready => TickReady(now, ready);
        case Arming => TickArming(now, ready);
        case Active => TickActive(now);
        case Stopping => TickStopping(now, ready);
        case Finished =>
        case Fault => TickFault(now, ready);
      }
      Fields();
      controlEnabled := phase == Active || phase == Stopping || (phase == Arming && activationArmed);
    }

    method BeginTick(now: real)
      requires Wired()
      modifies this, timedInputs
      ensures State() == Begun(cfg, old(State()), now)
    {
      hide State, RaceRuntime.DropCalls, RaceRuntime.ResetActivation, RaceRuntime.ResetPhase, ClearInputs, Reason;
      Fields();
      if lastNow >= 0.0 && now + 0.05 < lastNow {
        ResetState(now);
        ClearTrackers();
        SetReason("TIME_ROLLBACK_RESET");
      }
      NoteTick(now);
    }

    method NoteTick(now: real)
      requires Wired()
      modifies `lastNow
      ensures State() == old(State()).(lastNow := now)
    {
      lastNow := now;
    }

    method TickIdle(now: real)
      requires Wired()
      modifies this
      ensures State() == RaceRuntime.TickIdle(cfg, old(State()), now)
    {
      hide State, RaceRuntime.BaseFailure, Reason, Enter, Faulted;
      Fields();
      SameInputs();
      var failure := BaseFailure(now);
      if !startRequested {
        SetReason("WAITING_FOR_START");
      } else if failure.None? {
        Transition(Ready, "READINESS_COMPLETE");
      } else if now - startSec > cfg.startupTimeout {
        RaiseFault(failure.value);
      } else {
        SetReason(failure.value);
      }
    }

    method TickReady(now: real, ready: PerService<bool>)
      requires Wired()
      modifies this
      ensures State() == RaceRuntime.TickReady(cfg, old(State()), now, ready)
    {
      hide State, RaceRuntime.BaseFailure, Enter, Faulted, RaceRuntime.CallService;
      SameInputs();
      var failure := BaseFailure(now);
      if failure.Some? {
        RaiseFault(failure.value);
        return;
      }
      CallService(ControlModeService, SetMode(Autonomous), ready.controlMode, now);
      Fields();
      if pending.controlMode.Answered? && pending.controlMode.success {
        Transition(Arming, "AUTO_REQUEST_ACCEPTED");
      }
    }

    method TickArming(now: real, ready: PerService<bool>)
      requires Wired()
      modifies this
      ensures State() == RaceRuntime.TickArming(cfg, old(State()), now, ready)
    {
      hide State, RaceRuntime.BaseFailure, Enter, Faulted, RaceRuntime.CallService, Armed, Reason, FinalIsStop;
      Fields();
      SameInputs();
      var failure := BaseFailure(now);
      if failure.Some? {
        RaiseFault(failure.value);
        return;
      }
      if !IsFresh(RAW_CONTROL, now, cfg.controlTimeout) {
        SetReason("WAITING_RAW_CONTROL");
        return;
      }
      if activationArmed && MessageAt(ENGAGE) == Some(Engage(true)) {
        Transition(Active, "ENGAGE_CONFIRMED");
        return;
      }
      var stopping := FinalCommandIsStop(now);
      if MessageAt(CONTROL_MODE) == Some(ModeReport(Autonomous)) && MessageAt(GEAR) == Some(GearReport(Drive)) && stopping {
        if !activationArmed {
          Arm(now);
        } else if timedInputs[RAW_CONTROL].receiptSec > activationStamp {
          CallService(EngageService, SetEngage(true), ready.engage, now);
        }
      } else {
        SetReason("WAITING_AUTO_GEAR_STOP");
      }
    }

    method FinalCommandIsStop(now: real) returns (stop: bool)
      requires Wired()
      ensures stop == FinalIsStop(cfg, InputsNow(), now)
    {
      if !IsFresh(FINAL_CONTROL, now, cfg.controlTimeout) {
        return false;
      }
      match MessageAt(FINAL_CONTROL) {
        case Some(FinalControl(velocity, acceleration)) => return velocity <= 0.05 && acceleration <= 0.1;
        case _ => return false;
      }
    }

    method Arm(now: real)
      requires Wired()
      modifies `activationArmed, `activationStamp, `reason
      ensures State() == Armed(old(State()), now)
    {
      activationArmed := true;
      activationStamp := now;
      reason := "WAITING_POST_ENABLE_CONTROL";
    }

    method TickActive(now: real)
      requires Wired()
      modifies this
      ensures State() == RaceRuntime.TickActive(cfg, old(State()), now)
    {
      hide State, RaceRuntime.ActiveFailure, Enter, Faulted;
      Fields();
      SameInputs();
      var failure := ActiveFailure(now);
      if failure.Some? {
        RaiseFault(failure.value);
      } else if stopRequested || MessageAt(ROUTE) == Some(Route(true)) {
        Transition(Stopping, "STOP_REQUESTED_OR_ARRIVED");
      }
    }

    method TickStopping(now: real, ready: PerService<bool>)
      requires Wired()
      modifies this
      ensures State() == RaceRuntime.TickStopping(cfg, old(State()), now, ready)
    {
      hide State, RaceRuntime.ActiveFailure, Enter, Faulted, RaceRuntime.Disengage;
      Fields();
      SameInputs();
      if Abs(SpeedMps()) >= cfg.stopSpeed {
        var failure := ActiveFailure(now);
        if failure.Some? {
          RaiseFault(failure.value);
        }
        return;
      }
      Disengage(now, ready);
      if ReleasedMode(MessageAt(CONTROL_MODE))
         && (MessageAt(GEAR) == Some(GearReport(Park)) || MessageAt(GEAR) == Some(GearReport(Neutral)))
         && MessageAt(ENGAGE) == Some(Engage(false)) {
        Transition(Finished, "STOP_CONFIRMED");
      }
    }

    method Disengage(now: real, ready: PerService<bool>)
      requires Wired()
      modifies `pending, `lastServiceCall
      ensures State() == RaceRuntime.Disengage(cfg, old(State()), now, ready)
    {
      hide State, RaceRuntime.CallService;
      CallService(EngageService, SetEngage(false), ready.engage, now);
      CallService(ControlModeService, SetMode(Manual), ready.controlMode, now);
    }

    method TickFault(now: real, ready: PerService<bool>)
      requires Wired()
      modifies this
      ensures State() == RaceRuntime.TickFault(cfg, old(State()), now, ready)
    {
      hide State, RaceRuntime.Disengage;
      SameInputs();
      if Abs(SpeedMps()) < cfg.stopSpeed {
        Disengage(now, ready);
      }
    }
  }
}
