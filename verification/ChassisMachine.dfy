/**
  * The chassis node as a state machine: one function per callback, over every way the
  * serial link can answer. `VehicleInterface` holds the same callbacks on mutable fields.
  */
module ChassisMachine {
  import opened Basics
  import opened SerialProtocol
  import FeedbackDecoder
  import opened VehicleState
  import opened ChassisJournal

  // ----- the serial link

  /** One answer of the operating system inside a frame write. */
  datatype WriteStep =
    | Wrote(n: nat)     // `write` took n bytes
    | Interrupted       // EINTR
    | BlockedThenReady  // EAGAIN, and the poll reported the port writable before the deadline
    | Failed            // any other error, hangup or timeout

  /** The answers a given write attempt meets. Running out of them is the deadline. */
  type Link = nat -> seq<WriteStep>

  /** The whole frame of `size` bytes goes out, `offset` of them already have. */
  predicate Delivers(steps: seq<WriteStep>, offset: nat, size: nat)
    decreases |steps|
  {
    if offset >= size then true
    else if steps == [] then false
    else
      match steps[0]
      case Wrote(n) => n > 0 && Delivers(steps[1..], offset + n, size)
      case Interrupted => Delivers(steps[1..], offset, size)
      case BlockedThenReady => Delivers(steps[1..], offset, size)
      case Failed => false
  }

  // ----- state

  datatype Chassis = Chassis(
    open: bool, openAttempted: bool,
    autonomous: bool, transmitted: bool, latched: bool, stopSent: bool,
    rcOverride: bool, hasFeedback: bool,
    clearPending: bool, clearZeroSent: bool, clearSent: bool,
    gear: Gear, lastStampNs: int, status: Status,
    emergency: EmergencyState, hall: HallState,
    buffer: seq<Byte>, stats: FeedbackDecoder.Stats,
    attempts: nat, journal: Journal)

  const START := Chassis(
    false, false, false, false, false, false, false, false, false, false, false,
    Park, NO_STAMP, NO_STATUS, EmergencyState(0, false, false), HALL_IDLE, [], FeedbackDecoder.NO_STATS, 0, [])

  function Log(s: Chassis, e: Entry): Chassis {
    s.(journal := s.journal + [e])
  }

  function ResetHandshake(s: Chassis): Chassis {
    s.(clearPending := false, clearZeroSent := false, clearSent := false)
  }

  function ResetHall(s: Chassis): Chassis {
    s.(hall := HALL_IDLE)
  }

  function DiscardBuffer(s: Chassis): Chassis {
    s.(buffer := [], stats := s.stats.(discardedBytes := s.stats.discardedBytes + |s.buffer|))
  }

  // ----- the port

  function OpenSerial(cfg: Config, s: Chassis, opens: bool): Chassis {
    if s.open || (cfg.telemetryOnly && s.openAttempted) then s
    else
      var tried := s.(openAttempted := cfg.telemetryOnly);
      if opens then Log(MarkOpen(DiscardBuffer(tried)), Opened) else tried
  }

  function MarkOpen(s: Chassis): Chassis {
    s.(open := true)
  }

  function DropPort(s: Chassis): Chassis {
    s.(open := false, autonomous := false, transmitted := false)
  }

  function DropConnection(s: Chassis): Chassis {
    s.(stopSent := false, rcOverride := false, hasFeedback := false)
  }

  function CloseSerial(s: Chassis): Chassis {
    if !s.open then s
    else Log(DiscardBuffer(ResetHall(ResetHandshake(DropConnection(DropPort(s))))), Closed)
  }

  function Attempt(s: Chassis): Chassis {
    s.(attempts := s.attempts + 1)
  }

  /** A failed write closes the port from inside the caller. */
  function WriteFrame(cfg: Config, link: Link, s: Chassis, sent: Entry): (Chassis, bool) {
    if cfg.telemetryOnly || !s.open then (s, false)
    else
      if Delivers(link(s.attempts), 0, COMMAND_SIZE) then (Log(Attempt(s), sent), true) else (CloseSerial(Attempt(s)), false)
  }

  function TransmitSoftwareStop(cfg: Config, link: Link, s: Chassis): (Chassis, bool) {
    var (written, ok) := WriteFrame(cfg, link, s, StopSent);
    (if ok then Stopped(written) else written, ok)
  }

  function Stopped(s: Chassis): Chassis {
    s.(transmitted := false)
  }

  function TransmitClearFault(cfg: Config, link: Link, s: Chassis): (Chassis, bool) {
    WriteFrame(cfg, link, s, ClearSent)
  }

  /** One stop frame, remembered as sent if it went out. */
  function SendStop(cfg: Config, link: Link, s: Chassis): (Chassis, bool) {
    var (after, ok) := TransmitSoftwareStop(cfg, link, s);
    (NoteStop(after, ok), ok)
  }

  function NoteStop(s: Chassis, ok: bool): Chassis {
    s.(stopSent := ok)
  }

  function SetLatch(s: Chassis): Chassis {
    s.(latched := true, autonomous := false)
  }

  function MarkLatched(s: Chassis): Chassis {
    Log(ResetHall(ResetHandshake(SetLatch(s))), StopLatched)
  }

  function Latch(cfg: Config, link: Link, s: Chassis): Chassis {
    var latched := MarkLatched(s);
    if !cfg.telemetryOnly && latched.open && !latched.stopSent then SendStop(cfg, link, latched).0 else latched
  }

  /** The latch as used on feedback: only if the node drives or has driven. */
  function LatchIfDriving(cfg: Config, link: Link, s: Chassis, condition: bool): Chassis {
    if condition && (s.autonomous || s.transmitted) then Latch(cfg, link, s) else s
  }

  // ----- command endpoints; a telemetry-only node does not create them

  function OnGear(s: Chassis, gear: Option<Gear>): Chassis {
    match gear
    case None => s
    case Some(g) => Log(s.(gear := g), GearSet(g))
  }

  function OnEmergency(cfg: Config, link: Link, s: Chassis, active: bool, nowMs: int): Chassis {
    var seen := SeeEmergency(s, active, nowMs);
    if active then Latch(cfg, link, seen) else seen
  }

  function SeeEmergency(s: Chassis, active: bool, nowMs: int): Chassis {
    Log(s.(emergency := EmergencyState(nowMs, true, active)), EmergencySeen(active, nowMs))
  }

  datatype ModeRequest = RequestAutonomous | RequestManual | RequestNoCommand | RequestOther

  predicate AcceptsAutonomous(cfg: Config, s: Chassis, nowMs: int) {
    s.open && s.emergency.FreshAndClear(nowMs, cfg.emergencyTimeoutMs) && s.hasFeedback && !s.status.rcInputFault
  }

  function Revoked(s: Chassis): Chassis {
    s.(autonomous := false)
  }

  function MarkReleased(s: Chassis): Chassis {
    Log(ResetHall(ResetHandshake(Revoked(s))), Released)
  }

  /** A latched fault opens a clear handshake unless one is already open. */
  function BeginHandshake(s: Chassis): Chassis {
    if !s.status.faultLatched then ResetHandshake(s)
    else if s.clearPending then s
    else OpenHandshake(s)
  }

  function OpenHandshake(s: Chassis): Chassis {
    s.(clearPending := true, clearZeroSent := false, clearSent := false)
  }

  function Authorised(s: Chassis): Chassis {
    s.(latched := false, stopSent := false, autonomous := true)
  }

  function Grant(s: Chassis, nowMs: int): Chassis {
    BeginHandshake(Log(Authorised(ResetHall(s)), Accepted(nowMs)))
  }

  function Release(cfg: Config, link: Link, s: Chassis): (Chassis, bool) {
    var stopRequired := !s.stopSent && (s.autonomous || s.transmitted);
    var released := MarkReleased(s);
    if !s.open || !stopRequired then (released, true) else SendStop(cfg, link, released)
  }

  /** The state and the service's answer. */
  function OnModeRequest(cfg: Config, link: Link, s: Chassis, mode: ModeRequest, nowMs: int): (Chassis, bool) {
    match mode
    case RequestAutonomous => if AcceptsAutonomous(cfg, s, nowMs) then (Grant(s, nowMs), true) else (s, false)
    case RequestManual => Release(cfg, link, s)
    case RequestNoCommand => Release(cfg, link, s)
    case RequestOther => (s, false)
  }

  const MAX_STAMP_AGE_NS := 250_000_000
  const FUTURE_STAMP_TOLERANCE_NS := 50_000_000

  predicate StampIsFresh(s: Chassis, stampNs: int, clockNs: int) {
    -FUTURE_STAMP_TOLERANCE_NS <= clockNs - stampNs <= MAX_STAMP_AGE_NS && s.lastStampNs <= stampNs
  }

  /** A Control message, and the clock readings its callback takes. */
  datatype ControlInput = ControlInput(
    velocity: Double, steering: Double, stampNs: int, clockNs: int, checkMs: int, noteMs: int)

  function MotionCommand(s: Chassis, setpoint: Setpoint): ChassisCommand {
    if s.clearPending then ChassisCommand(Finite(0.0), Finite(0.0), true, false, false)
    else
      ChassisCommand(Finite(if GearAllows(s.gear, setpoint.speed) then setpoint.speed else 0.0),
                     Finite(setpoint.steering), true, false, false)
  }

  function OnControl(cfg: Config, link: Link, s: Chassis, m: ControlInput): Chassis {
    if !s.autonomous then s
    else if !s.emergency.FreshAndClear(m.checkMs, cfg.emergencyTimeoutMs) then Latch(cfg, link, s)
    else if !s.open || !StampIsFresh(s, m.stampNs, m.clockNs) then s
    else
      match ControlToMotion(m.velocity, m.steering, cfg.limits)
      case None => s
      case Some(setpoint) =>
        var command := MotionCommand(s, setpoint);
        if EncodeCommand(command).None? then s else SendMotion(cfg, link, s, command, m)
  }

  function SendMotion(cfg: Config, link: Link, s: Chassis, command: ChassisCommand, m: ControlInput): Chassis
    requires command.speed.Finite?
  {
    var (written, ok) := WriteFrame(cfg, link, s, MotionSent(command, m.stampNs, m.checkMs));
    if ok then NoteMotion(written, command.speed.value, m) else written
  }

  function NoteMotion(s: Chassis, speed: real, m: ControlInput): Chassis {
    var noted := NoteStamp(s, m.stampNs);
    if noted.clearPending then ResetHall(NoteZero(noted))
    else if noted.rcOverride then ResetHall(noted)
    else noted.(hall := NoteCommand(noted.hall, speed, m.noteMs))
  }

  function NoteStamp(s: Chassis, stampNs: int): Chassis {
    s.(lastStampNs := stampNs, transmitted := true)
  }

  function NoteZero(s: Chassis): Chassis {
    s.(clearZeroSent := true)
  }

  // ----- feedback

  function SeeTelemetry(s: Chassis, status: Status): Chassis {
    Log(s.(hasFeedback := true, rcOverride := status.rcOverride), Entry.Telemetry(status))
  }

  /** Stops for a feedback contract violation or a live fault, and records the status. */
  function CheckFeedback(cfg: Config, link: Link, s: Chassis, status: Status, velocity: VelocityState): Chassis {
    var checked := LatchIfDriving(cfg, link, SeeTelemetry(s, status), velocity == Inconsistent);
    LatchIfDriving(cfg, link, NoteStatus(checked, status), status.rcInputFault)
  }

  function NoteStatus(s: Chassis, status: Status): Chassis {
    s.(status := status)
  }

  /** The fault-clear handshake, or a stop for a new latch. */
  function StepHandshake(cfg: Config, link: Link, s: Chassis, status: Status): Chassis {
    if !status.rcInputFault && s.clearPending then
      if status.faultLatched then
        if s.clearZeroSent && !s.clearSent && status.FaultClearPermitted() then
          var (after, ok) := TransmitClearFault(cfg, link, s);
          NoteClear(after, ok)
        else s
      else if status.ReportedMode() == Autonomous then ResetHandshake(s)
      else s
    else if !status.rcInputFault && status.faultLatched && s.autonomous then Latch(cfg, link, s)
    else s
  }

  function NoteClear(s: Chassis, ok: bool): Chassis {
    s.(clearSent := ok)
  }

  predicate HallBlocked(s: Chassis, status: Status) {
    s.rcOverride || status.commandTimeout || status.stopOverride || status.rcInputFault || status.faultLatched
  }

  function WatchHall(cfg: Config, link: Link, s: Chassis, status: Status, velocity: VelocityState, nowMs: int): Chassis {
    if HallBlocked(s, status) then ResetHall(s)
    else
      var (hall, decision) := ObserveHall(s.hall, velocity == MeasuredMotion, nowMs, cfg.hallTimeouts);
      if decision == Fault then Latch(cfg, link, s.(hall := hall)) else s.(hall := hall)
  }

  function OnStatus(cfg: Config, link: Link, s: Chassis, status: Status, velocity: VelocityState, nowMs: int): Chassis {
    var checked := CheckFeedback(cfg, link, s, status, velocity);
    WatchHall(cfg, link, StepHandshake(cfg, link, checked, status), status, velocity, nowMs)
  }

  function OnFeedback(cfg: Config, link: Link, s: Chassis, f: ChassisFeedback, nowMs: int): Chassis {
    var status := ReadStatus(f.statusBits);
    OnStatus(cfg, link, s, status, VelocityFeedback(status, f.hallSpeed), nowMs)
  }

  /** A decoded batch is worked off to its end even if one of its frames closes the port. */
  function OnBatch(cfg: Config, link: Link, s: Chassis, frames: seq<ChassisFeedback>, nowMs: int): Chassis {
    if frames == [] then s
    else OnFeedback(cfg, link, OnBatch(cfg, link, s, frames[..|frames| - 1], nowMs), frames[|frames| - 1], nowMs)
  }

  // ----- the timer

  /** One answer of the operating system to a read; anything else ends the reading quietly. */
  datatype ReadStep = Data(bytes: seq<Byte>, nowMs: int) | ReadInterrupted | ReadFailed

  function OnData(cfg: Config, link: Link, s: Chassis, bytes: seq<Byte>, nowMs: int): Chassis {
    OnBatch(cfg, link, Absorb(s, bytes), FeedbackDecoder.Scan(s.buffer + bytes).frames, nowMs)
  }

  function Absorb(s: Chassis, bytes: seq<Byte>): Chassis {
    var outcome := FeedbackDecoder.Scan(s.buffer + bytes);
    s.(buffer := outcome.rest, stats := s.stats.Plus(outcome.stats))
  }

  /** Once a batch has closed the port the next read of the dead descriptor fails. */
  function ReadSerial(cfg: Config, link: Link, s: Chassis, answers: seq<ReadStep>): Chassis
    decreases |answers|
  {
    if answers == [] || !s.open then s
    else
      match answers[0]
      case Data(bytes, nowMs) => ReadSerial(cfg, link, OnData(cfg, link, s, bytes, nowMs), answers[1..])
      case ReadInterrupted => ReadSerial(cfg, link, s, answers[1..])
      case ReadFailed => CloseSerial(s)
  }

  datatype Poll = PollError | Hangup | Readable(answers: seq<ReadStep>) | Quiet

  function OnTimer(cfg: Config, link: Link, s: Chassis, opens: bool, nowMs: int, poll: Poll): Chassis {
    var polled := OpenSerial(cfg, s, opens);
    var guarded :=
      if polled.autonomous && !polled.emergency.FreshAndClear(nowMs, cfg.emergencyTimeoutMs)
      then Latch(cfg, link, polled) else polled;
    if !guarded.open then guarded
    else
      match poll
      case PollError => CloseSerial(guarded)
      case Hangup => CloseSerial(guarded)
      case Readable(answers) => ReadSerial(cfg, link, guarded, answers)
      case Quiet => guarded
  }

  function OnShutdown(cfg: Config, link: Link, s: Chassis): Chassis {
    CloseSerial(if !cfg.telemetryOnly && s.open && s.transmitted then TransmitSoftwareStop(cfg, link, s).0 else s)
  }

  // ----- runs

  datatype Event =
    | GearCommand(requested: Option<Gear>)
    | EmergencyStatus(active: bool, nowMs: int)
    | ModeCommand(mode: ModeRequest, nowMs: int)
    | Control(input: ControlInput)
    | Timer(opens: bool, nowMs: int, poll: Poll)
    | Shutdown

  function Step(cfg: Config, link: Link, s: Chassis, e: Event): Chassis {
    match e
    case Timer(opens, nowMs, poll) => OnTimer(cfg, link, s, opens, nowMs, poll)
    case Shutdown => OnShutdown(cfg, link, s)
    case GearCommand(requested) => if cfg.telemetryOnly then s else OnGear(s, requested)
    case EmergencyStatus(active, nowMs) => if cfg.telemetryOnly then s else OnEmergency(cfg, link, s, active, nowMs)
    case ModeCommand(mode, nowMs) => if cfg.telemetryOnly then s else OnModeRequest(cfg, link, s, mode, nowMs).0
    case Control(input) => if cfg.telemetryOnly then s else OnControl(cfg, link, s, input)
  }

  function Run(cfg: Config, link: Link, events: seq<Event>): Chassis {
    if events == [] then START
    else Step(cfg, link, Run(cfg, link, events[..|events| - 1]), events[|events| - 1])
  }
}
