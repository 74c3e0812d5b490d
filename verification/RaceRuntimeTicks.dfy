/** What one tick of the race runtime does in each phase, told by the inputs and spelled out to the last condition. */
module RaceRuntimeTicks {
  import opened Basics
  import opened TimedInput
  import opened RaceRuntime

  // ----- health

  /** A message has arrived, is not from the future, and neither its arrival nor its stamp is older than the timeout. */
  predicate Current(t: Timed<Message>, now: real, timeout: real) {
    && t.message.Some?
    && t.receipt <= now + 0.05 && t.source <= now + 0.05
    && now - t.receipt <= timeout && now - t.source <= timeout
  }

  /** Localized, on a trajectory, and every report of the vehicle current. */
  predicate Healthy(cfg: Config, i: Inputs, now: real) {
    && i[LOCALIZATION].message == Some(Localization(true))
    && Current(i[ODOMETRY], now, cfg.localizationTimeout)
    && Current(i[TRAJECTORY], now, cfg.trajectoryTimeout) && Drivable(i[TRAJECTORY].message)
    && Current(i[VELOCITY], now, cfg.velocityTimeout)
    && Current(i[STEERING], now, cfg.vehicleTimeout) && Current(i[GEAR], now, cfg.vehicleTimeout)
    && Current(i[CONTROL_MODE], now, cfg.vehicleTimeout)
  }

  predicate Drivable(m: Option<Message>) {
    m.Some? && m.value.Trajectory? && m.value.points >= 2
  }

  /** Healthy, with current raw and final control, under autonomous control. */
  predicate Driving(cfg: Config, i: Inputs, now: real) {
    && Healthy(cfg, i, now)
    && Current(i[RAW_CONTROL], now, cfg.controlTimeout) && Current(i[FINAL_CONTROL], now, cfg.controlTimeout)
    && i[CONTROL_MODE].message == Some(ModeReport(Autonomous))
  }

  /** Slower than the stop speed in either direction; before the first velocity report the speed counts as 0. */
  predicate AtRest(cfg: Config, i: Inputs) {
    match i[VELOCITY].message
    case Some(Velocity(speed)) => -cfg.stopSpeed < speed < cfg.stopSpeed
    case _ => 0.0 < cfg.stopSpeed
  }

  predicate IsReleased(m: Option<Message>) {
    m == Some(ModeReport(Manual)) || m == Some(ModeReport(NoCommand))
  }

  lemma HealthyExactly(cfg: Config, i: Inputs, now: real)
    ensures BaseFailure(cfg, i, now).None? <==> Healthy(cfg, i, now)
  {
  }

  lemma DrivingExactly(cfg: Config, phase: Phase, i: Inputs, now: real)
    requires phase == Active || (phase == Stopping && !AtRest(cfg, i))
    ensures ActiveFailure(cfg, phase, i, now).None? <==> Driving(cfg, i, now)
  {
    hide BaseFailure, Healthy;
    HealthyExactly(cfg, i, now);
    RestExactly(cfg, i);
  }

  lemma RestExactly(cfg: Config, i: Inputs)
    ensures Stopped(cfg, i) <==> AtRest(cfg, i)
  {
  }

  /** The clock went back by more than the tolerance since the last tick. */
  predicate WentBack(s: Runtime, now: real) {
    s.lastNow >= 0.0 && now < s.lastNow - 0.05
  }

  // ----- calls

  /** What a call to a service does to what is pending there. */
  predicate Calls(cfg: Config, s: Runtime, service: Service, request: Request, ready: bool, now: real, pending: Call) {
    if !s.pending.Get(service).InFlight? && now - s.lastCall.Get(service) >= cfg.serviceRetry && ready
    then pending == InFlight(request) else pending == s.pending.Get(service)
  }

  lemma CallsExactly(cfg: Config, s: Runtime, service: Service, request: Request, ready: bool, now: real)
    ensures var t := CallService(cfg, s, service, request, ready, now);
            && Calls(cfg, s, service, request, ready, now, t.pending.Get(service))
            && (forall other :: other != service ==>
                  t.pending.Get(other) == s.pending.Get(other) && t.lastCall.Get(other) == s.lastCall.Get(other))
            && (t.lastCall.Get(service) == if t == s then s.lastCall.Get(service) else now)
  {
  }

  /** Disengaging asks both services, each under its own conditions. */
  predicate Disengages(cfg: Config, s: Runtime, now: real, ready: PerService<bool>, t: Runtime) {
    && Calls(cfg, s, EngageService, SetEngage(false), ready.engage, now, t.pending.engage)
    && Calls(cfg, s, ControlModeService, SetMode(Manual), ready.controlMode, now, t.pending.controlMode)
  }

  lemma DisengagesExactly(cfg: Config, s: Runtime, now: real, ready: PerService<bool>)
    ensures Disengages(cfg, s, now, ready, Disengage(cfg, s, now, ready))
  {
    hide CallService;
    CallsExactly(cfg, s, EngageService, SetEngage(false), ready.engage, now);
    var engaged := CallService(cfg, s, EngageService, SetEngage(false), ready.engage, now);
    CallsExactly(cfg, engaged, ControlModeService, SetMode(Manual), ready.controlMode, now);
  }

  // ----- the phases

  /** IDLE leaves for READY exactly when started and healthy, and for FAULT when started and unhealthy for too long. */
  lemma IdleExactly(cfg: Config, s: Runtime, now: real, ready: PerService<bool>)
    requires s.phase == Idle && !WentBack(s, now)
    ensures var t := OnTick(cfg, s, now, ready);
            && (t.phase == Ready <==> s.startRequested && Healthy(cfg, s.inputs, now))
            && (t.phase == Fault <==>
                  s.startRequested && !Healthy(cfg, s.inputs, now) && now - s.startSec > cfg.startupTimeout)
            && (t.phase == Ready || t.phase == Fault || t.phase == Idle) && t.pending == s.pending && !(t.armed && !s.armed)
  {
    hide BaseFailure, Healthy;
    HealthyExactly(cfg, s.inputs, now);
  }

  /**
    * READY faults exactly when unhealthy; healthy, it calls for autonomous control, and leaves for
    * ARMING exactly when an acceptance is pending that this very tick does not overwrite.
    */
  lemma ReadyExactly(cfg: Config, s: Runtime, now: real, ready: PerService<bool>)
    requires s.phase == Ready && !WentBack(s, now)
    ensures var t := OnTick(cfg, s, now, ready);
            && (t.phase == Fault <==> !Healthy(cfg, s.inputs, now))
            && (t.phase == Fault ==> t.pending == s.pending)
            && (t.phase != Fault ==>
                  && Calls(cfg, s, ControlModeService, SetMode(Autonomous), ready.controlMode, now, t.pending.controlMode)
                  && (t.phase == Arming <==> t.pending.controlMode.Answered? && t.pending.controlMode.success)
                  && (t.phase == Arming || t.phase == Ready))
  {
    hide BaseFailure, Healthy, CallService;
    HealthyExactly(cfg, s.inputs, now);
    CallsExactly(cfg, s.(lastNow := now), ControlModeService, SetMode(Autonomous), ready.controlMode, now);
  }

  /** Autonomous, in drive, and the final control says stand still. */
  predicate ToldToStand(cfg: Config, i: Inputs, now: real) {
    && i[CONTROL_MODE].message == Some(ModeReport(Autonomous)) && i[GEAR].message == Some(GearReport(Drive))
    && Current(i[FINAL_CONTROL], now, cfg.controlTimeout)
    && match i[FINAL_CONTROL].message
       case Some(FinalControl(velocity, acceleration)) => velocity <= 0.05 && acceleration <= 0.1
       case _ => false
  }

  /**
    * ARMING faults exactly when unhealthy. With current raw control, an armed tick that sees the
    * engagement goes ACTIVE; one that finds the vehicle told to stand arms, and once armed asks to
    * engage on raw control received since.
    */
  lemma ArmingExactly(cfg: Config, s: Runtime, now: real, ready: PerService<bool>)
    requires s.phase == Arming && !WentBack(s, now)
    ensures var t := OnTick(cfg, s, now, ready);
            var raw := Current(s.inputs[RAW_CONTROL], now, cfg.controlTimeout);
            var engaged := s.armed && s.inputs[ENGAGE].message == Some(Engage(true));
            && (t.phase == Fault <==> !Healthy(cfg, s.inputs, now))
            && (t.phase == Active <==> Healthy(cfg, s.inputs, now) && raw && engaged)
            && (t.phase == Fault || t.phase == Active || t.phase == Arming)
            && (t.armed <==> s.armed || (Healthy(cfg, s.inputs, now) && raw && ToldToStand(cfg, s.inputs, now)))
            && t.activationStamp == (if t.armed && !s.armed then now else s.activationStamp)
            && t.pending.controlMode == s.pending.controlMode
            && (if Healthy(cfg, s.inputs, now) && raw && s.armed && !engaged && ToldToStand(cfg, s.inputs, now)
                   && s.inputs[RAW_CONTROL].receipt > s.activationStamp
                then Calls(cfg, s, EngageService, SetEngage(true), ready.engage, now, t.pending.engage)
                else t.pending.engage == s.pending.engage)
  {
    hide BaseFailure, Healthy, CallService, StandsReady;
    HealthyExactly(cfg, s.inputs, now);
    StandExactly(cfg, s.inputs, now);
    CallsExactly(cfg, s.(lastNow := now), EngageService, SetEngage(true), ready.engage, now);
  }

  lemma StandExactly(cfg: Config, i: Inputs, now: real)
    ensures StandsReady(cfg, i, now) <==> ToldToStand(cfg, i, now)
  {
  }

  /** ACTIVE faults exactly when not driving, and stops exactly when driving with a stop requested or the route arrived. */
  lemma ActiveExactly(cfg: Config, s: Runtime, now: real, ready: PerService<bool>)
    requires s.phase == Active && !WentBack(s, now)
    ensures var t := OnTick(cfg, s, now, ready);
            && (t.phase == Fault <==> !Driving(cfg, s.inputs, now))
            && (t.phase == Stopping <==>
                  Driving(cfg, s.inputs, now) && (s.stopRequested || s.inputs[ROUTE].message == Some(Route(true))))
            && (t.phase == Fault || t.phase == Stopping || t.phase == Active) && t.pending == s.pending
  {
    hide ActiveFailure, Driving;
    DrivingExactly(cfg, Active, s.inputs, now);
  }

  /**
    * STOPPING that still moves faults exactly when not driving. At rest it disengages, and ends
    * exactly when the vehicle is released, in park or neutral, and disengaged.
    */
  lemma StoppingExactly(cfg: Config, s: Runtime, now: real, ready: PerService<bool>)
    requires s.phase == Stopping && !WentBack(s, now)
    ensures var t := OnTick(cfg, s, now, ready);
            && (t.phase == Fault <==> !AtRest(cfg, s.inputs) && !Driving(cfg, s.inputs, now))
            && (t.phase == Finished <==>
                  && AtRest(cfg, s.inputs) && IsReleased(s.inputs[CONTROL_MODE].message)
                  && (s.inputs[GEAR].message == Some(GearReport(Park)) || s.inputs[GEAR].message == Some(GearReport(Neutral)))
                  && s.inputs[ENGAGE].message == Some(Engage(false)))
            && (t.phase == Fault || t.phase == Finished || t.phase == Stopping)
            && (if AtRest(cfg, s.inputs) then Disengages(cfg, s, now, ready, t) else t.pending == s.pending)
  {
    hide ActiveFailure, Driving, Disengage, Stopped, AtRest;
    RestExactly(cfg, s.inputs);
    if !AtRest(cfg, s.inputs) { DrivingExactly(cfg, Stopping, s.inputs, now); }
    DisengagesExactly(cfg, s.(lastNow := now), now, ready);
  }

  /** FINISHED and FAULT stay; FAULT disengages at rest. */
  lemma TerminalExactly(cfg: Config, s: Runtime, now: real, ready: PerService<bool>)
    requires (s.phase == Finished || s.phase == Fault) && !WentBack(s, now)
    ensures var t := OnTick(cfg, s, now, ready);
            && t.phase == s.phase
            && (if s.phase == Fault && AtRest(cfg, s.inputs) then Disengages(cfg, s, now, ready, t) else t.pending == s.pending)
  {
    hide Disengage, Stopped, AtRest;
    RestExactly(cfg, s.inputs);
    DisengagesExactly(cfg, s.(lastNow := now), now, ready);
  }

  // ----- restarts

  /** A reset is granted at rest, released or without a mode report, and not engaged. */
  predicate MayReset(cfg: Config, i: Inputs) {
    && AtRest(cfg, i) && (i[CONTROL_MODE].message.None? || IsReleased(i[CONTROL_MODE].message))
    && i[ENGAGE].message != Some(Engage(true))
  }

  lemma RestartsExactly(cfg: Config, s: Runtime, e: Event)
    ensures Restarts(cfg, s, e) <==>
            (e.ResetService? && MayReset(cfg, s.inputs)) || (e.Tick? && WentBack(s, e.now))
  {
    hide Stopped, AtRest;
    RestExactly(cfg, s.inputs);
  }

  /** A granted reset starts over and keeps what was received; a refused one changes nothing. */
  lemma ResetExactly(cfg: Config, s: Runtime, now: real)
    ensures var (t, granted) := OnReset(cfg, s, now);
            && (granted <==> MayReset(cfg, s.inputs))
            && (!granted ==> t == s)
            && (granted ==>
                  && t.phase == Idle && t.startSec == now && t.startRequested == cfg.autoStart && !t.stopRequested && !t.armed
                  && t.pending == PerService(NoCall, NoCall) && t.inputs == s.inputs
                  && t.lastCall == s.lastCall && t.lastNow == s.lastNow && t.reason == "RESET")
  {
    RestartsExactly(cfg, s, ResetService(now));
  }

  /** A tick of a clock that went back starts over, and forgets what was received. */
  lemma RollbackExactly(cfg: Config, s: Runtime, now: real, ready: PerService<bool>)
    requires WentBack(s, now)
    ensures var t := OnTick(cfg, s, now, ready);
            && t.startSec == now && t.startRequested == cfg.autoStart && !t.stopRequested && !t.armed
            && t.pending == PerService(NoCall, NoCall) && t.lastCall == s.lastCall && t.lastNow == now
            && (forall k :: 0 <= k < TOPICS ==> t.inputs[k].message.None?)
            && (t.phase == Idle || (t.phase == Fault && cfg.autoStart && cfg.startupTimeout < 0.0))
  {
    hide BaseFailure;
    var begun := Begun(cfg, s, now);
    assert begun.inputs[LOCALIZATION].message.None?;
    HealthyExactly(cfg, begun.inputs, now);
  }

  /** Every tick notes its time. */
  lemma TickNotes(cfg: Config, s: Runtime, now: real, ready: PerService<bool>)
    ensures OnTick(cfg, s, now, ready).lastNow == now
  {
    hide Begun, TickIdle, TickReady, TickArming, TickActive, TickStopping, TickFault, BaseFailure;
    BegunNotes(cfg, s, now);
    var begun := Begun(cfg, s, now);
    match begun.phase
    case Arming => ArmingNotes(cfg, begun, now, ready);
    case _ =>
  }

  lemma BegunNotes(cfg: Config, s: Runtime, now: real)
    ensures Begun(cfg, s, now).lastNow == now
  {
  }

  lemma ArmingNotes(cfg: Config, s: Runtime, now: real, ready: PerService<bool>)
    ensures TickArming(cfg, s, now, ready).lastNow == s.lastNow
  {
    hide BaseFailure, StandsReady, CallService;
  }

  // ----- the reason reported

  /** What is asked of the inputs, in order, with the name of each failure: eight for health, all eleven for driving. */
  function Checks(cfg: Config, i: Inputs, now: real): (r: seq<(bool, string)>)
    ensures |r| == 11
  {
    [(i[LOCALIZATION].message == Some(Localization(true)), "LOCALIZATION_NOT_INITIALIZED"),
     (Current(i[ODOMETRY], now, cfg.localizationTimeout), "LOCALIZATION_STALE"),
     (Current(i[TRAJECTORY], now, cfg.trajectoryTimeout), "TRAJECTORY_STALE"),
     (Drivable(i[TRAJECTORY].message), "TRAJECTORY_INVALID"),
     (Current(i[VELOCITY], now, cfg.velocityTimeout), "VELOCITY_STALE"),
     (Current(i[STEERING], now, cfg.vehicleTimeout), "STEERING_STALE"),
     (Current(i[GEAR], now, cfg.vehicleTimeout), "GEAR_STALE"),
     (Current(i[CONTROL_MODE], now, cfg.vehicleTimeout), "CONTROL_MODE_STALE"),
     (Current(i[RAW_CONTROL], now, cfg.controlTimeout), "RAW_CONTROL_STALE"),
     (Current(i[FINAL_CONTROL], now, cfg.controlTimeout), "FINAL_CONTROL_STALE"),
     (i[CONTROL_MODE].message == Some(ModeReport(Autonomous)), "AUTONOMOUS_CONTROL_LOST")]
  }

  /** The first of the first `n` checks that fails has this name. */
  predicate FirstFailing(checks: seq<(bool, string)>, n: nat, name: string)
    requires n <= |checks|
  {
    exists k: nat :: k < n && !checks[k].0 && checks[k].1 == name && forall j :: 0 <= j < k ==> checks[j].0
  }

  lemma BaseNamed(cfg: Config, i: Inputs, now: real)
    ensures var failure := BaseFailure(cfg, i, now);
            failure.Some? ==> FirstFailing(Checks(cfg, i, now), 8, failure.value)
  {
    hide FirstFailing;
    var failure, checks := BaseFailure(cfg, i, now), Checks(cfg, i, now);
    if failure.Some? {
      var k := if !checks[0].0 then 0 else if !checks[1].0 then 1 else if !checks[2].0 then 2 else if !checks[3].0 then 3
               else if !checks[4].0 then 4 else if !checks[5].0 then 5 else if !checks[6].0 then 6 else 7;
      FailsFirst(checks, 8, k, failure.value);
    }
  }

  lemma FailsFirst(checks: seq<(bool, string)>, n: nat, k: nat, name: string)
    requires k < n <= |checks| && !checks[k].0 && checks[k].1 == name && forall j :: 0 <= j < k ==> checks[j].0
    ensures FirstFailing(checks, n, name)
  {
  }

  lemma ActiveNamed(cfg: Config, phase: Phase, i: Inputs, now: real)
    requires phase == Active || (phase == Stopping && !AtRest(cfg, i))
    ensures var failure := ActiveFailure(cfg, phase, i, now);
            failure.Some? ==> FirstFailing(Checks(cfg, i, now), 11, failure.value)
  {
    hide FirstFailing, BaseFailure, AtRest, Stopped;
    RestExactly(cfg, i);
    BaseNamed(cfg, i, now);
    var failure, checks := ActiveFailure(cfg, phase, i, now), Checks(cfg, i, now);
    if BaseFailure(cfg, i, now).Some? {
      Longer(checks, failure.value);
    } else if failure.Some? {
      HealthyExactly(cfg, i, now);
      assert forall j :: 0 <= j < 8 ==> checks[j].0;
      FailsFirst(checks, 11, if !checks[8].0 then 8 else if !checks[9].0 then 9 else 10, failure.value);
    }
  }

  lemma Longer(checks: seq<(bool, string)>, name: string)
    requires |checks| == 11 && FirstFailing(checks, 8, name)
    ensures FirstFailing(checks, 11, name)
  {
  }

  /**
    * The reason that a tick reports: on a fault, and while not healthy in IDLE, the first check
    * that fails; else what the phase waits for or has just reached; else the reason before.
    */
  lemma ReasonExactly(cfg: Config, s: Runtime, now: real, ready: PerService<bool>)
    requires !WentBack(s, now)
    ensures var t := OnTick(cfg, s, now, ready);
            var checks := Checks(cfg, s.inputs, now);
            if t.phase == Fault && s.phase != Fault then
              FirstFailing(checks, if s.phase == Active || s.phase == Stopping then 11 else 8, t.reason)
            else
              match s.phase
              case Idle =>
                if !s.startRequested then t.reason == "WAITING_FOR_START"
                else if Healthy(cfg, s.inputs, now) then t.reason == "READINESS_COMPLETE"
                else FirstFailing(checks, 8, t.reason)
              case Arming =>
                t.reason == if t.phase == Active then "ENGAGE_CONFIRMED"
                            else if !Current(s.inputs[RAW_CONTROL], now, cfg.controlTimeout) then "WAITING_RAW_CONTROL"
                            else if !ToldToStand(cfg, s.inputs, now) then "WAITING_AUTO_GEAR_STOP"
                            else if !s.armed then "WAITING_POST_ENABLE_CONTROL"
                            else s.reason
              case _ =>
                t.reason == if t.phase == s.phase then s.reason
                            else if t.phase == Arming then "AUTO_REQUEST_ACCEPTED"
                            else if t.phase == Stopping then "STOP_REQUESTED_OR_ARRIVED"
                            else "STOP_CONFIRMED"
  {
    hide Healthy, Checks, FirstFailing, ToldToStand, TickIdle, TickReady, TickArming, TickActive, TickStopping, TickFault;
    var begun := Begun(cfg, s, now);
    match s.phase
    case Idle => IdleReason(cfg, begun, now);
    case Ready => ReadyReason(cfg, begun, now, ready);
    case Arming => ArmingReason(cfg, begun, now, ready);
    case Active => ActiveReason(cfg, begun, now);
    case Stopping => StoppingReason(cfg, begun, now, ready);
    case Finished =>
    case Fault => FaultReason(cfg, begun, now, ready);
  }

  lemma IdleReason(cfg: Config, s: Runtime, now: real)
    requires s.phase == Idle
    ensures var t := TickIdle(cfg, s, now);
            if !s.startRequested then t.phase != Fault && t.reason == "WAITING_FOR_START"
            else if Healthy(cfg, s.inputs, now) then t.phase != Fault && t.reason == "READINESS_COMPLETE"
            else FirstFailing(Checks(cfg, s.inputs, now), 8, t.reason)
  {
    hide BaseFailure, Healthy, Checks, FirstFailing;
    HealthyExactly(cfg, s.inputs, now);
    BaseNamed(cfg, s.inputs, now);
  }

  lemma ReadyReason(cfg: Config, s: Runtime, now: real, ready: PerService<bool>)
    requires s.phase == Ready
    ensures var t := TickReady(cfg, s, now, ready);
            if t.phase == Fault then FirstFailing(Checks(cfg, s.inputs, now), 8, t.reason)
            else t.reason == if t.phase == Ready then s.reason else "AUTO_REQUEST_ACCEPTED"
  {
    hide BaseFailure, Checks, FirstFailing, CallService;
    BaseNamed(cfg, s.inputs, now);
    CallKeepsReason(cfg, s, ControlModeService, SetMode(Autonomous), ready.controlMode, now);
  }

  lemma ActiveReason(cfg: Config, s: Runtime, now: real)
    requires s.phase == Active
    ensures var t := TickActive(cfg, s, now);
            if t.phase == Fault then FirstFailing(Checks(cfg, s.inputs, now), 11, t.reason)
            else t.reason == if t.phase == Active then s.reason else "STOP_REQUESTED_OR_ARRIVED"
  {
    hide ActiveFailure, Checks, FirstFailing;
    ActiveNamed(cfg, Active, s.inputs, now);
  }

  lemma StoppingReason(cfg: Config, s: Runtime, now: real, ready: PerService<bool>)
    requires s.phase == Stopping
    ensures var t := TickStopping(cfg, s, now, ready);
            if t.phase == Fault then FirstFailing(Checks(cfg, s.inputs, now), 11, t.reason)
            else t.reason == if t.phase == Stopping then s.reason else "STOP_CONFIRMED"
  {
    hide ActiveFailure, Checks, FirstFailing, Disengage, AtRest, Stopped;
    RestExactly(cfg, s.inputs);
    if !AtRest(cfg, s.inputs) { ActiveNamed(cfg, Stopping, s.inputs, now); }
    DisengageKeepsReason(cfg, s, now, ready);
  }

  lemma FaultReason(cfg: Config, s: Runtime, now: real, ready: PerService<bool>)
    ensures TickFault(cfg, s, now, ready).reason == s.reason
  {
    hide Disengage, Stopped;
    DisengageKeepsReason(cfg, s, now, ready);
  }

  lemma CallKeepsReason(cfg: Config, s: Runtime, service: Service, request: Request, ready: bool, now: real)
    ensures CallService(cfg, s, service, request, ready, now).reason == s.reason
  {
  }

  lemma DisengageKeepsReason(cfg: Config, s: Runtime, now: real, ready: PerService<bool>)
    ensures Disengage(cfg, s, now, ready).reason == s.reason
  {
  }

  lemma ArmingReason(cfg: Config, s: Runtime, now: real, ready: PerService<bool>)
    requires s.phase == Arming
    ensures var t := TickArming(cfg, s, now, ready);
            if t.phase == Fault then FirstFailing(Checks(cfg, s.inputs, now), 8, t.reason)
            else
              t.reason == if t.phase == Active then "ENGAGE_CONFIRMED"
                          else if !Current(s.inputs[RAW_CONTROL], now, cfg.controlTimeout) then "WAITING_RAW_CONTROL"
                          else if !ToldToStand(cfg, s.inputs, now) then "WAITING_AUTO_GEAR_STOP"
                          else if !s.armed then "WAITING_POST_ENABLE_CONTROL"
                          else s.reason
  {
    hide BaseFailure, Checks, FirstFailing, StandsReady, ToldToStand, CallService;
    BaseNamed(cfg, s.inputs, now);
    StandExactly(cfg, s.inputs, now);
    CallKeepsReason(cfg, s, EngageService, SetEngage(true), ready.engage, now);
  }
}
