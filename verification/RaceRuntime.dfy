/**
  * The race runtime as a state machine: phases over timed inputs, two services that answer
  * when they like, and one function per callback. `RaceRuntimeManager` holds the same
  * callbacks on mutable fields.
  */
module RaceRuntime {
  import opened Basics
  import opened TimedInput

  datatype Phase = Idle | Ready | Arming | Active | Stopping | Finished | Fault {
    function Rank(): nat {
      match this
      case Idle => 0
      case Ready => 1
      case Arming => 2
      case Active => 3
      case Stopping => 4
      case Finished => 5
      case Fault => 6
    }
  }

  datatype Config = Config(
    autoStart: bool, startupTimeout: real, localizationTimeout: real, trajectoryTimeout: real, controlTimeout: real,
    velocityTimeout: real, vehicleTimeout: real, stopSpeed: real, serviceRetry: real)

  // ----- topics

  datatype Mode = Autonomous | Manual | NoCommand | OtherMode
  datatype Gear = Drive | Park | Neutral | OtherGear

  /** What the node looks at in a message. */
  datatype Message =
    | Localization(initialized: bool)
    | Odometry
    | Trajectory(points: nat)
    | Route(arrived: bool)
    | RawControl
    | FinalControl(velocity: real, acceleration: real)
    | ModeReport(mode: Mode)
    | GearReport(gear: Gear)
    | Velocity(speed: real)
    | Steering
    | Engage(engage: bool)

  const LOCALIZATION: nat := 0
  const ODOMETRY: nat := 1
  const TRAJECTORY: nat := 2
  const ROUTE: nat := 3
  const RAW_CONTROL: nat := 4
  const FINAL_CONTROL: nat := 5
  const CONTROL_MODE: nat := 6
  const GEAR: nat := 7
  const VELOCITY: nat := 8
  const STEERING: nat := 9
  const ENGAGE: nat := 10
  const TOPICS: nat := 11

  function Topic(m: Message): (t: nat)
    ensures t < TOPICS
  {
    match m
    case Localization(_) => LOCALIZATION
    case Odometry => ODOMETRY
    case Trajectory(_) => TRAJECTORY
    case Route(_) => ROUTE
    case RawControl => RAW_CONTROL
    case FinalControl(_, _) => FINAL_CONTROL
    case ModeReport(_) => CONTROL_MODE
    case GearReport(_) => GEAR
    case Velocity(_) => VELOCITY
    case Steering => STEERING
    case Engage(_) => ENGAGE
  }

  const UNSEEN := Timed<Message>.Timed(None, -1.0, -1.0, 0, 0, 0)

  type Inputs = i: seq<Timed<Message>> | |i| == TOPICS witness seq(TOPICS, _ => UNSEEN)

  function Latest(i: Inputs, topic: nat): Option<Message>
    requires topic < TOPICS
  {
    i[topic].message
  }

  function SpeedOf(i: Inputs): real {
    match Latest(i, VELOCITY)
    case Some(Velocity(speed)) => speed
    case _ => 0.0
  }

  predicate Stopped(cfg: Config, i: Inputs) {
    Abs(SpeedOf(i)) < cfg.stopSpeed
  }

  predicate ReleasedMode(m: Option<Message>) {
    m == Some(ModeReport(Manual)) || m == Some(ModeReport(NoCommand))
  }

  // ----- failures

  predicate Missing(i: Inputs, topic: nat, now: real, timeout: real)
    requires topic < TOPICS
  {
    !i[topic].Fresh(now, timeout)
  }

  function BaseFailure(cfg: Config, i: Inputs, now: real): Option<string> {
    if Latest(i, LOCALIZATION) != Some(Localization(true)) then Some("LOCALIZATION_NOT_INITIALIZED")
    else if Missing(i, ODOMETRY, now, cfg.localizationTimeout) then Some("LOCALIZATION_STALE")
    else if Missing(i, TRAJECTORY, now, cfg.trajectoryTimeout) then Some("TRAJECTORY_STALE")
    else if !HasPath(i) then Some("TRAJECTORY_INVALID")
    else if Missing(i, VELOCITY, now, cfg.velocityTimeout) then Some("VELOCITY_STALE")
    else if Missing(i, STEERING, now, cfg.vehicleTimeout) then Some("STEERING_STALE")
    else if Missing(i, GEAR, now, cfg.vehicleTimeout) then Some("GEAR_STALE")
    else if Missing(i, CONTROL_MODE, now, cfg.vehicleTimeout) then Some("CONTROL_MODE_STALE")
    else None
  }

  predicate HasPath(i: Inputs) {
    match Latest(i, TRAJECTORY)
    case Some(Trajectory(points)) => points >= 2
    case _ => false
  }

  function ActiveFailure(cfg: Config, phase: Phase, i: Inputs, now: real): Option<string> {
    var failure := BaseFailure(cfg, i, now);
    if failure.Some? then failure
    else if Missing(i, RAW_CONTROL, now, cfg.controlTimeout) then Some("RAW_CONTROL_STALE")
    else if Missing(i, FINAL_CONTROL, now, cfg.controlTimeout) then Some("FINAL_CONTROL_STALE")
    else if Latest(i, CONTROL_MODE) != Some(ModeReport(Autonomous)) && !ExpectedHandover(cfg, phase, i)
    then Some("AUTONOMOUS_CONTROL_LOST")
    else None
  }

  predicate ExpectedHandover(cfg: Config, phase: Phase, i: Inputs) {
    (phase == Stopping || phase == Fault) && Stopped(cfg, i)
  }

  predicate FinalIsStop(cfg: Config, i: Inputs, now: real) {
    !Missing(i, FINAL_CONTROL, now, cfg.controlTimeout)
    && match Latest(i, FINAL_CONTROL)
       case Some(FinalControl(velocity, acceleration)) => velocity <= 0.05 && acceleration <= 0.1
       case _ => false
  }

  // ----- services

  datatype Service = ControlModeService | EngageService
  datatype Request = SetMode(mode: Mode) | SetEngage(engage: bool)

  /** A service call: the future the node keeps. */
  datatype Call = NoCall | InFlight(request: Request) | Answered(request: Request, success: bool)

  /** A dictionary over the two services. */
  datatype PerService<T> = PerService(controlMode: T, engage: T) {
    function Get(s: Service): T {
      if s == ControlModeService then controlMode else engage
    }

    function Put(s: Service, value: T): PerService<T> {
      if s == ControlModeService then this.(controlMode := value) else this.(engage := value)
    }
  }

  // ----- state

  datatype Runtime = Runtime(
    phase: Phase, startSec: real, lastNow: real, startRequested: bool, stopRequested: bool,
    armed: bool, activationStamp: real, lastCall: PerService<real>, pending: PerService<Call>,
    reason: string, inputs: Inputs)

  function Start(cfg: Config, now: real): Runtime {
    Runtime(Idle, now, -1.0, cfg.autoStart, false, false, -1.0, PerService(-1.0, -1.0), PerService(NoCall, NoCall),
            "WAITING_FOR_START", seq(TOPICS, _ => UNSEEN))
  }

  function Reason(s: Runtime, reason: string): Runtime {
    s.(reason := reason)
  }

  function Enter(s: Runtime, phase: Phase, reason: string): Runtime {
    s.(phase := phase, reason := reason)
  }

  function Faulted(s: Runtime, reason: string): Runtime {
    if s.phase == Fault then s else Enter(s, Fault, reason)
  }

  function ClearedInputs(i: Inputs): (r: Inputs) {
    seq(TOPICS, k requires 0 <= k < TOPICS => i[k].Cleared())
  }

  function ClearInputs(s: Runtime): Runtime {
    s.(inputs := ClearedInputs(s.inputs))
  }

  function ResetPhase(cfg: Config, s: Runtime, now: real): Runtime {
    s.(phase := Idle, startSec := now, startRequested := cfg.autoStart)
  }

  function ResetActivation(s: Runtime): Runtime {
    s.(stopRequested := false, armed := false, activationStamp := -1.0)
  }

  function DropCalls(s: Runtime): Runtime {
    s.(pending := PerService(NoCall, NoCall), reason := "RESET")
  }

  function ResetState(cfg: Config, s: Runtime, now: real, clearInputs: bool): Runtime {
    var reset := DropCalls(ResetActivation(ResetPhase(cfg, s, now)));
    if clearInputs then ClearInputs(reset) else reset
  }

  /** An unanswered call and the retry period hold a new call back; an answered one is overwritten. */
  predicate CallsNow(cfg: Config, s: Runtime, service: Service, ready: bool, now: real) {
    !s.pending.Get(service).InFlight? && now - s.lastCall.Get(service) >= cfg.serviceRetry && ready
  }

  /** What is known of the vehicle, and the arming, are the same in both states. */
  predicate Untouched(s: Runtime, t: Runtime) {
    s.inputs == t.inputs && s.armed == t.armed && s.activationStamp == t.activationStamp && s.lastNow == t.lastNow
  }

  /** No call in flight is replaced. */
  function CallService(cfg: Config, s: Runtime, service: Service, request: Request, ready: bool, now: real): (r: Runtime)
    ensures Untouched(s, r) && r.phase == s.phase
    ensures r.pending == s.pending
            || (!s.pending.Get(service).InFlight? && r.pending == s.pending.Put(service, InFlight(request)))
  {
    if CallsNow(cfg, s, service, ready, now) then NoteCall(s, service, request, now) else s
  }

  function NoteCall(s: Runtime, service: Service, request: Request, now: real): Runtime {
    s.(pending := s.pending.Put(service, InFlight(request)), lastCall := s.lastCall.Put(service, now))
  }

  // ----- services offered by the node

  function OnStart(s: Runtime): (Runtime, bool) {
    if s.phase == Idle || s.phase == Ready then (s.(startRequested := true), true) else (s, false)
  }

  function OnStop(s: Runtime): Runtime {
    s.(stopRequested := true)
  }

  /** At a standstill, under manual control, disengaged. */
  predicate ResetAllowed(cfg: Config, i: Inputs) {
    && Stopped(cfg, i)
    && (Latest(i, CONTROL_MODE).None? || ReleasedMode(Latest(i, CONTROL_MODE)))
    && Latest(i, ENGAGE) != Some(Engage(true))
  }

  function OnReset(cfg: Config, s: Runtime, now: real): (Runtime, bool) {
    if ResetAllowed(cfg, s.inputs) then (ResetState(cfg, s, now, false), true) else (s, false)
  }

  // ----- messages and answers

  function OnMessage(s: Runtime, m: Message, now: real, stamp: real): Runtime {
    s.(inputs := s.inputs[Topic(m) := s.inputs[Topic(m)].Updated(m, now, stamp).0])
  }

  function OnReply(s: Runtime, service: Service, success: bool): Runtime {
    match s.pending.Get(service)
    case InFlight(request) => s.(pending := s.pending.Put(service, Answered(request, success)))
    case NoCall => s
    case Answered(_, _) => s
  }

  // ----- the timer

  predicate RollsBack(s: Runtime, now: real) {
    s.lastNow >= 0.0 && now + 0.05 < s.lastNow
  }

  function Begun(cfg: Config, s: Runtime, now: real): (r: Runtime)
    ensures RollsBack(s, now) ==>
              r.phase == Idle && !r.armed && r.pending == PerService(NoCall, NoCall)
              && forall k :: 0 <= k < TOPICS ==> r.inputs[k].message.None?
    ensures !RollsBack(s, now) ==> r == s.(lastNow := now)
  {
    var restarted :=
      if RollsBack(s, now) then Reason(ResetState(cfg, s, now, true), "TIME_ROLLBACK_RESET") else s;
    restarted.(lastNow := now)
  }

  function TickIdle(cfg: Config, s: Runtime, now: real): (r: Runtime)
    ensures Untouched(s, r) && r.pending == s.pending
    ensures r.phase == s.phase || r.phase == Ready || r.phase == Fault
  {
    if !s.startRequested then Reason(s, "WAITING_FOR_START")
    else
      match BaseFailure(cfg, s.inputs, now)
      case None => Enter(s, Ready, "READINESS_COMPLETE")
      case Some(failure) =>
        if now - s.startSec > cfg.startupTimeout then Faulted(s, failure) else Reason(s, failure)
  }

  function TickReady(cfg: Config, s: Runtime, now: real, ready: PerService<bool>): (r: Runtime)
    ensures Untouched(s, r) && r.pending.engage == s.pending.engage
    ensures r.pending.controlMode == s.pending.controlMode
            || (r.pending.controlMode == InFlight(SetMode(Autonomous)) && BaseFailure(cfg, s.inputs, now).None?)
    ensures r.phase == s.phase || r.phase == Fault
            || (r.phase == Arming && r.pending.controlMode.Answered? && r.pending.controlMode.success)
  {
    match BaseFailure(cfg, s.inputs, now)
    case Some(failure) => Faulted(s, failure)
    case None =>
      var called := CallService(cfg, s, ControlModeService, SetMode(Autonomous), ready.controlMode, now);
      if called.pending.controlMode.Answered? && called.pending.controlMode.success
      then Enter(called, Arming, "AUTO_REQUEST_ACCEPTED") else called
  }

  /** Autonomous, in drive, and told to stand still. */
  predicate StandsReady(cfg: Config, i: Inputs, now: real) {
    && Latest(i, CONTROL_MODE) == Some(ModeReport(Autonomous)) && Latest(i, GEAR) == Some(GearReport(Drive))
    && FinalIsStop(cfg, i, now)
  }

  function Armed(s: Runtime, now: real): Runtime {
    s.(armed := true, activationStamp := now, reason := "WAITING_POST_ENABLE_CONTROL")
  }

  /** Everything healthy, raw control fresh, and the vehicle stands ready. */
  predicate Armable(cfg: Config, i: Inputs, now: real) {
    BaseFailure(cfg, i, now).None? && i[RAW_CONTROL].Fresh(now, cfg.controlTimeout) && StandsReady(cfg, i, now)
  }

  function TickArming(cfg: Config, s: Runtime, now: real, ready: PerService<bool>): (r: Runtime)
    ensures r.inputs == s.inputs && r.pending.controlMode == s.pending.controlMode
    ensures r.armed <==> s.armed || Armable(cfg, s.inputs, now)
    ensures r.armed ==> r.activationStamp == if s.armed then s.activationStamp else now
    ensures r.phase == s.phase || r.phase == Fault || r.phase == Active
    ensures s.phase == Arming ==>
              (r.phase == Active <==>
                 && s.armed && Latest(s.inputs, ENGAGE) == Some(Engage(true))
                 && BaseFailure(cfg, s.inputs, now).None? && s.inputs[RAW_CONTROL].Fresh(now, cfg.controlTimeout))
    ensures r.pending == s.pending
            || (s.armed && Armable(cfg, s.inputs, now) && s.inputs[RAW_CONTROL].receipt > s.activationStamp
                && r.pending.engage == InFlight(SetEngage(true)))
  {
    match BaseFailure(cfg, s.inputs, now)
    case Some(failure) => Faulted(s, failure)
    case None =>
      if Missing(s.inputs, RAW_CONTROL, now, cfg.controlTimeout) then Reason(s, "WAITING_RAW_CONTROL")
      else if s.armed && Latest(s.inputs, ENGAGE) == Some(Engage(true)) then Enter(s, Active, "ENGAGE_CONFIRMED")
      else if !StandsReady(cfg, s.inputs, now) then Reason(s, "WAITING_AUTO_GEAR_STOP")
      else if !s.armed then Armed(s, now)
      else if s.inputs[RAW_CONTROL].receipt > s.activationStamp
      then CallService(cfg, s, EngageService, SetEngage(true), ready.engage, now)
      else s
  }

  function TickActive(cfg: Config, s: Runtime, now: real): (r: Runtime)
    ensures Untouched(s, r) && r.pending == s.pending
    ensures r.phase == s.phase || r.phase == Stopping || r.phase == Fault
    ensures s.phase != Fault ==> (r.phase == Fault <==> ActiveFailure(cfg, s.phase, s.inputs, now).Some?)
  {
    match ActiveFailure(cfg, s.phase, s.inputs, now)
    case Some(failure) => Faulted(s, failure)
    case None =>
      if s.stopRequested || Latest(s.inputs, ROUTE) == Some(Route(true))
      then Enter(s, Stopping, "STOP_REQUESTED_OR_ARRIVED") else s
  }

  function Disengage(cfg: Config, s: Runtime, now: real, ready: PerService<bool>): (r: Runtime)
    ensures Untouched(s, r) && r.phase == s.phase
    ensures r.pending.engage == s.pending.engage || r.pending.engage == InFlight(SetEngage(false))
    ensures r.pending.controlMode == s.pending.controlMode || r.pending.controlMode == InFlight(SetMode(Manual))
  {
    var engaged := CallService(cfg, s, EngageService, SetEngage(false), ready.engage, now);
    CallService(cfg, engaged, ControlModeService, SetMode(Manual), ready.controlMode, now)
  }

  predicate StopConfirmed(i: Inputs) {
    && ReleasedMode(Latest(i, CONTROL_MODE))
    && (Latest(i, GEAR) == Some(GearReport(Park)) || Latest(i, GEAR) == Some(GearReport(Neutral)))
    && Latest(i, ENGAGE) == Some(Engage(false))
  }

  function TickStopping(cfg: Config, s: Runtime, now: real, ready: PerService<bool>): (r: Runtime)
    ensures Untouched(s, r)
    ensures r.phase == s.phase || r.phase == Finished || r.phase == Fault
    ensures r.pending.engage == s.pending.engage || r.pending.engage == InFlight(SetEngage(false))
    ensures r.pending.controlMode == s.pending.controlMode || r.pending.controlMode == InFlight(SetMode(Manual))
  {
    if !Stopped(cfg, s.inputs) then
      match ActiveFailure(cfg, s.phase, s.inputs, now)
      case Some(failure) => Faulted(s, failure)
      case None => s
    else
      var disengaged := Disengage(cfg, s, now, ready);
      if StopConfirmed(s.inputs) then Enter(disengaged, Finished, "STOP_CONFIRMED") else disengaged
  }

  function TickFault(cfg: Config, s: Runtime, now: real, ready: PerService<bool>): (r: Runtime)
    ensures Untouched(s, r) && r.phase == s.phase
    ensures r.pending.engage == s.pending.engage || r.pending.engage == InFlight(SetEngage(false))
    ensures r.pending.controlMode == s.pending.controlMode || r.pending.controlMode == InFlight(SetMode(Manual))
  {
    if Stopped(cfg, s.inputs) then Disengage(cfg, s, now, ready) else s
  }

  function OnTick(cfg: Config, s: Runtime, now: real, ready: PerService<bool>): Runtime {
    var begun := Begun(cfg, s, now);
    match begun.phase
    case Idle => TickIdle(cfg, begun, now)
    case Ready => TickReady(cfg, begun, now, ready)
    case Arming => TickArming(cfg, begun, now, ready)
    case Active => TickActive(cfg, begun, now)
    case Stopping => TickStopping(cfg, begun, now, ready)
    case Finished => begun
    case Fault => TickFault(cfg, begun, now, ready)
  }

  /** `is_autoware_control_enabled`, as the tick that ends in state `s` publishes it. */
  predicate ControlEnabled(s: Runtime) {
    s.phase == Active || s.phase == Stopping || (s.phase == Arming && s.armed)
  }

  // ----- runs

  datatype Event =
    | Receive(message: Message, now: real, stamp: real)
    | StartService
    | StopService
    | ResetService(now: real)
    | Reply(service: Service, success: bool)
    | Tick(now: real, ready: PerService<bool>)

  function Step(cfg: Config, s: Runtime, e: Event): Runtime {
    match e
    case Receive(message, now, stamp) => OnMessage(s, message, now, stamp)
    case StartService => OnStart(s).0
    case StopService => OnStop(s)
    case ResetService(now) => OnReset(cfg, s, now).0
    case Reply(service, success) => OnReply(s, service, success)
    case Tick(now, ready) => OnTick(cfg, s, now, ready)
  }

  /** The state after the first `n` events of a run that began at time `began`. */
  function Run(cfg: Config, began: real, events: seq<Event>, n: nat): Runtime
    requires n <= |events|
  {
    if n == 0 then Start(cfg, began) else Step(cfg, Run(cfg, began, events, n - 1), events[n - 1])
  }

  /** The two ways out of a phase other than forward. */
  predicate Restarts(cfg: Config, s: Runtime, e: Event) {
    (e.ResetService? && ResetAllowed(cfg, s.inputs)) || (e.Tick? && RollsBack(s, e.now))
  }

  /** No restart at events `from` to `to - 1`. */
  ghost predicate SameEpoch(cfg: Config, began: real, events: seq<Event>, from: nat, to: nat)
    requires from <= to <= |events|
  {
    forall k: nat :: from <= k < to ==> !Restarts(cfg, Run(cfg, began, events, k), events[k])
  }
}
