/** What every step of the chassis node keeps, and what that means for whole runs. */
module ChassisSafety {
  import opened Basics
  import opened SerialProtocol
  import FeedbackDecoder
  import opened VehicleState
  import opened ChassisJournal
  import opened ChassisMachine

  // ----- invariants

  /** Holds even between revoking the authorization and stopping the chassis. */
  predicate Base(cfg: Config, s: Chassis) {
    var d := Digest(s.journal);
    && d.portOpen == s.open && d.unstopped == s.transmitted && d.gear == s.gear
    && d.emergency == s.emergency && d.newestStampNs == s.lastStampNs
    && d.heard == s.hasFeedback && (s.hasFeedback ==> d.telemetrySeen)
    && (s.transmitted ==> s.open && !s.stopSent && !cfg.telemetryOnly)
    && Safe(cfg, s.journal)
  }

  predicate Authorization(cfg: Config, s: Chassis) {
    var d := Digest(s.journal);
    && d.authorised == s.autonomous
    && (s.autonomous ==> s.open && !s.latched && !s.stopSent && d.telemetrySeen && !cfg.telemetryOnly)
    && (s.transmitted ==> s.autonomous)
    && (s.clearPending ==> s.autonomous)
    && (s.clearZeroSent ==> s.clearPending) && (s.clearSent ==> s.clearZeroSent)
  }

  predicate Core(cfg: Config, s: Chassis) {
    Base(cfg, s) && Authorization(cfg, s)
  }

  predicate HandshakeMatches(s: Chassis) {
    var d := Digest(s.journal);
    d.handshake == s.clearPending && d.handshakeZero == s.clearZeroSent && d.handshakeClear == s.clearSent
  }

  predicate FaultsHandled(s: Chassis) {
    Digest(s.journal).status == s.status
    && (s.autonomous ==> !s.status.rcInputFault && (s.status.faultLatched ==> s.clearPending))
  }

  /** The invariant of every reachable state. */
  predicate Invariant(cfg: Config, s: Chassis) {
    Core(cfg, s) && HandshakeMatches(s) && FaultsHandled(s)
  }

  // ----- the building blocks keep it

  lemma CloseKeeps(cfg: Config, s: Chassis)
    requires Base(cfg, s) && s.open
    ensures var c := CloseSerial(s);
            && Core(cfg, c) && HandshakeMatches(c) && !c.autonomous && !c.open
            && Digest(c.journal).status == Digest(s.journal).status && c.status == s.status
  {
    Extend(cfg, s.journal, Closed);
  }

  lemma StopSentKeeps(cfg: Config, s: Chassis)
    requires Base(cfg, s) && s.open && !cfg.telemetryOnly
    ensures var t := Log(Attempt(s), StopSent).(transmitted := false);
            && Base(cfg, t)
            && Digest(t.journal) == Digest(s.journal).(unstopped := false)
  {
    hide Digest, Safe;
    Extend(cfg, s.journal, StopSent);
  }

  /** Stopping leaves nothing unstopped, whether the frame went out or its failure closed the port. */
  lemma StopKeeps(cfg: Config, link: Link, s: Chassis)
    requires Base(cfg, s) && s.open && !cfg.telemetryOnly && !s.autonomous && !Digest(s.journal).authorised
    requires !s.clearPending && !s.clearZeroSent && !s.clearSent && HandshakeMatches(s)
    ensures var t := SendStop(cfg, link, s).0;
            && Core(cfg, t) && HandshakeMatches(t) && !t.autonomous && !t.transmitted
            && Digest(t.journal).status == Digest(s.journal).status && t.status == s.status
  {
    hide CloseSerial, Digest, Safe;
    StopSentKeeps(cfg, s);
    CloseKeeps(cfg, Attempt(s));
  }

  lemma LatchKeeps(cfg: Config, link: Link, s: Chassis)
    requires Base(cfg, s)
    ensures var t := Latch(cfg, link, s);
            && Core(cfg, t) && HandshakeMatches(t) && !t.autonomous
            && Digest(t.journal).status == Digest(s.journal).status && t.status == s.status
  {
    hide SendStop;
    Extend(cfg, s.journal, StopLatched);
    var latched := MarkLatched(s);
    if !cfg.telemetryOnly && latched.open && !latched.stopSent {
      StopKeeps(cfg, link, latched);
    }
  }

  // ----- every callback keeps it

  lemma OpenKeeps(cfg: Config, s: Chassis, opens: bool)
    requires Invariant(cfg, s)
    ensures Invariant(cfg, OpenSerial(cfg, s, opens))
  {
    Extend(cfg, s.journal, Opened);
  }

  lemma GearKeeps(cfg: Config, s: Chassis, gear: Option<Gear>)
    requires Invariant(cfg, s)
    ensures Invariant(cfg, OnGear(s, gear))
  {
    if gear.Some? {
      Extend(cfg, s.journal, GearSet(gear.value));
    }
  }

  lemma EmergencyKeeps(cfg: Config, link: Link, s: Chassis, active: bool, nowMs: int)
    requires Invariant(cfg, s)
    ensures Invariant(cfg, OnEmergency(cfg, link, s, active, nowMs))
  {
    hide Latch, Digest, Safe;
    Extend(cfg, s.journal, EmergencySeen(active, nowMs));
    if active {
      LatchKeeps(cfg, link, SeeEmergency(s, active, nowMs));
    }
  }

  lemma ModeRequestKeeps(cfg: Config, link: Link, s: Chassis, mode: ModeRequest, nowMs: int)
    requires Invariant(cfg, s) && !cfg.telemetryOnly
    ensures Invariant(cfg, OnModeRequest(cfg, link, s, mode, nowMs).0)
  {
    hide Invariant, Grant, Release;
    if mode.RequestAutonomous? {
      if AcceptsAutonomous(cfg, s, nowMs) { GrantKeeps(cfg, s, nowMs); }
    } else if !mode.RequestOther? {
      ReleaseKeeps(cfg, link, s);
    }
  }

  lemma ReleaseKeeps(cfg: Config, link: Link, s: Chassis)
    requires Invariant(cfg, s) && !cfg.telemetryOnly
    ensures Invariant(cfg, Release(cfg, link, s).0)
  {
    hide SendStop, Digest, Safe;
    Extend(cfg, s.journal, Released);
    var released := MarkReleased(s);
    if s.open && !s.stopSent && (s.autonomous || s.transmitted) {
      StopKeeps(cfg, link, released);
    }
  }

  lemma GrantKeeps(cfg: Config, s: Chassis, nowMs: int)
    requires Invariant(cfg, s) && !cfg.telemetryOnly && AcceptsAutonomous(cfg, s, nowMs)
    ensures Invariant(cfg, Grant(s, nowMs))
  {
    hide Digest, Safe;
    Extend(cfg, s.journal, Accepted(nowMs));
  }

  lemma ControlKeeps(cfg: Config, link: Link, s: Chassis, m: ControlInput)
    requires Invariant(cfg, s)
    ensures Invariant(cfg, OnControl(cfg, link, s, m))
  {
    hide Latch, SendMotion;
    if s.autonomous {
      if !s.emergency.FreshAndClear(m.checkMs, cfg.emergencyTimeoutMs) {
        LatchKeeps(cfg, link, s);
      } else if StampIsFresh(s, m.stampNs, m.clockNs) {
        var setpoint := ControlToMotion(m.velocity, m.steering, cfg.limits);
        if setpoint.Some? {
          var command := MotionCommand(s, setpoint.value);
          EncodeFailsExactly(command);
          if EncodeCommand(command).Some? {
            MotionKeeps(cfg, link, s, m, setpoint.value);
          }
        }
      }
    }
  }

  lemma MotionSentKeeps(cfg: Config, s: Chassis, m: ControlInput, command: ChassisCommand)
    requires Invariant(cfg, s) && s.autonomous
    requires command.speed.Finite? && command.steering.Finite?
    requires Justified(cfg, Digest(s.journal), MotionSent(command, m.stampNs, m.checkMs))
    ensures Invariant(cfg, NoteMotion(Log(Attempt(s), MotionSent(command, m.stampNs, m.checkMs)), command.speed.value, m))
  {
    Extend(cfg, s.journal, MotionSent(command, m.stampNs, m.checkMs));
    hide Digest, Safe, NoteCommand;
  }

  lemma MotionJustified(cfg: Config, s: Chassis, m: ControlInput, setpoint: Setpoint)
    requires Invariant(cfg, s) && s.autonomous
    requires var c := MotionCommand(s, setpoint); FitsWire(c.speed) && FitsWire(c.steering)
    requires s.emergency.FreshAndClear(m.checkMs, cfg.emergencyTimeoutMs)
    requires StampIsFresh(s, m.stampNs, m.clockNs)
    requires WithinLimits(cfg.limits, setpoint.speed, setpoint.steering)
    ensures Justified(cfg, Digest(s.journal), MotionSent(MotionCommand(s, setpoint), m.stampNs, m.checkMs))
  {
    hide Digest, Safe;
  }

  lemma MotionKeeps(cfg: Config, link: Link, s: Chassis, m: ControlInput, setpoint: Setpoint)
    requires Invariant(cfg, s) && s.autonomous
    requires var c := MotionCommand(s, setpoint); FitsWire(c.speed) && FitsWire(c.steering)
    requires s.emergency.FreshAndClear(m.checkMs, cfg.emergencyTimeoutMs)
    requires StampIsFresh(s, m.stampNs, m.clockNs)
    requires WithinLimits(cfg.limits, setpoint.speed, setpoint.steering)
    ensures Invariant(cfg, SendMotion(cfg, link, s, MotionCommand(s, setpoint), m))
  {
    hide CloseSerial, Digest, Safe, NoteMotion;
    MotionJustified(cfg, s, m, setpoint);
    MotionSentKeeps(cfg, s, m, MotionCommand(s, setpoint));
    CloseKeeps(cfg, Attempt(s));
  }

  // ----- feedback

  lemma TelemetryKeeps(cfg: Config, s: Chassis, status: Status)
    requires Invariant(cfg, s) && status == ReadStatus(status.word)
    ensures var t := SeeTelemetry(s, status);
            && Core(cfg, t) && Digest(t.journal).status == status
            && (if ConfirmsClear(status) then HandshakeMatches(ResetHandshake(t)) else HandshakeMatches(t))
  {
    hide ReadStatus;
    Extend(cfg, s.journal, Entry.Telemetry(status));
    hide Digest, Safe;
  }

  lemma CheckKeeps(cfg: Config, link: Link, s: Chassis, status: Status, velocity: VelocityState)
    requires Invariant(cfg, s) && status == ReadStatus(status.word)
    ensures var t := CheckFeedback(cfg, link, s, status, velocity);
            && Core(cfg, t) && Digest(t.journal).status == t.status == status
            && (status.rcInputFault ==> !t.autonomous)
            && (if ConfirmsClear(status) then HandshakeMatches(ResetHandshake(t)) else HandshakeMatches(t))
  {
    hide Latch, Base, Authorization, HandshakeMatches, ConfirmsClear, ReadStatus, SeeTelemetry, NoteStatus, ResetHandshake;
    TelemetryKeeps(cfg, s, status);
    var seen := SeeTelemetry(s, status);
    LatchOnStatus(cfg, link, seen, status, velocity == Inconsistent);
    var noted := NoteStatus(LatchIfDriving(cfg, link, seen, velocity == Inconsistent), status);
    NotedKeeps(cfg, LatchIfDriving(cfg, link, seen, velocity == Inconsistent), status);
    LatchOnStatus(cfg, link, noted, status, status.rcInputFault);
  }

  lemma NotedKeeps(cfg: Config, s: Chassis, status: Status)
    requires Core(cfg, s)
    ensures var t := NoteStatus(s, status);
            && Core(cfg, t) && t.journal == s.journal && t.status == status && t.autonomous == s.autonomous
            && (HandshakeMatches(s) ==> HandshakeMatches(t))
            && (HandshakeMatches(ResetHandshake(s)) ==> HandshakeMatches(ResetHandshake(t)))
  {
    hide Digest, Safe;
  }

  /** A latch on feedback, or none: what telemetry left of the handshake is kept. */
  lemma LatchOnStatus(cfg: Config, link: Link, s: Chassis, status: Status, condition: bool)
    requires Core(cfg, s) && Digest(s.journal).status == status
    requires if ConfirmsClear(status) then HandshakeMatches(ResetHandshake(s)) else HandshakeMatches(s)
    ensures var t := LatchIfDriving(cfg, link, s, condition);
            && Core(cfg, t) && Digest(t.journal).status == status && t.status == s.status
            && (condition ==> !t.autonomous)
            && (if ConfirmsClear(status) then HandshakeMatches(ResetHandshake(t)) else HandshakeMatches(t))
  {
    hide Latch, ConfirmsClear, Digest, Safe;
    LatchKeeps(cfg, link, s);
    ResetMatches(Latch(cfg, link, s));
  }

  lemma ResetMatches(s: Chassis)
    requires HandshakeMatches(s) && !s.clearPending && !s.clearZeroSent && !s.clearSent
    ensures HandshakeMatches(ResetHandshake(s))
  {
    hide Digest;
  }

  lemma HandshakeStepKeeps(cfg: Config, link: Link, s: Chassis, status: Status)
    requires Core(cfg, s) && Digest(s.journal).status == s.status == status
    requires status.rcInputFault ==> !s.autonomous
    requires if ConfirmsClear(status) then HandshakeMatches(ResetHandshake(s)) else HandshakeMatches(s)
    ensures Invariant(cfg, StepHandshake(cfg, link, s, status))
  {
    hide Latch, TransmitClearFault;
    if !status.rcInputFault && s.clearPending {
      if status.faultLatched && s.clearZeroSent && !s.clearSent && status.FaultClearPermitted() {
        ClearKeeps(cfg, link, s);
      }
    } else if !status.rcInputFault && status.faultLatched && s.autonomous {
      LatchKeeps(cfg, link, s);
    }
  }

  lemma ClearKeeps(cfg: Config, link: Link, s: Chassis)
    requires Invariant(cfg, s) && s.clearZeroSent && !s.clearSent && s.status.FaultClearPermitted()
    ensures var (t, ok) := TransmitClearFault(cfg, link, s); Invariant(cfg, t.(clearSent := ok))
  {
    hide CloseSerial, Digest, Safe;
    ClearSentKeeps(cfg, s);
    CloseKeeps(cfg, Attempt(s));
  }

  lemma ClearSentKeeps(cfg: Config, s: Chassis)
    requires Invariant(cfg, s) && s.clearZeroSent && !s.clearSent && s.status.FaultClearPermitted()
    ensures Invariant(cfg, Log(Attempt(s), ClearSent).(clearSent := true))
  {
    hide Digest, Safe;
    Extend(cfg, s.journal, ClearSent);
  }

  lemma WatchKeeps(cfg: Config, link: Link, s: Chassis, status: Status, velocity: VelocityState, nowMs: int)
    requires Invariant(cfg, s)
    ensures Invariant(cfg, WatchHall(cfg, link, s, status, velocity, nowMs))
  {
    hide Latch, Digest, Safe;
    var (hall, decision) := ObserveHall(s.hall, velocity == MeasuredMotion, nowMs, cfg.hallTimeouts);
    LatchKeeps(cfg, link, s.(hall := hall));
  }

  lemma StatusKeeps(cfg: Config, link: Link, s: Chassis, status: Status, velocity: VelocityState, nowMs: int)
    requires Invariant(cfg, s) && status == ReadStatus(status.word)
    ensures Invariant(cfg, OnStatus(cfg, link, s, status, velocity, nowMs))
  {
    hide ReadStatus;
    CheckKeeps(cfg, link, s, status, velocity);
    var checked := CheckFeedback(cfg, link, s, status, velocity);
    HandshakeStepKeeps(cfg, link, checked, status);
    WatchKeeps(cfg, link, StepHandshake(cfg, link, checked, status), status, velocity, nowMs);
  }

  lemma FeedbackKeeps(cfg: Config, link: Link, s: Chassis, f: ChassisFeedback, nowMs: int)
    requires Invariant(cfg, s)
    ensures Invariant(cfg, OnFeedback(cfg, link, s, f, nowMs))
  {
    var status := ReadStatus(f.statusBits);
    StatusKeeps(cfg, link, s, status, VelocityFeedback(status, f.hallSpeed), nowMs);
  }

  lemma {:induction false} BatchKeeps(cfg: Config, link: Link, s: Chassis, frames: seq<ChassisFeedback>, nowMs: int)
    requires Invariant(cfg, s)
    ensures Invariant(cfg, OnBatch(cfg, link, s, frames, nowMs))
  {
    if frames != [] {
      BatchKeeps(cfg, link, s, frames[..|frames| - 1], nowMs);
      FeedbackKeeps(cfg, link, OnBatch(cfg, link, s, frames[..|frames| - 1], nowMs), frames[|frames| - 1], nowMs);
    }
  }

  lemma DataKeeps(cfg: Config, link: Link, s: Chassis, bytes: seq<Byte>, nowMs: int)
    requires Invariant(cfg, s)
    ensures Invariant(cfg, OnData(cfg, link, s, bytes, nowMs))
  {
    BatchKeeps(cfg, link, Absorb(s, bytes), FeedbackDecoder.Scan(s.buffer + bytes).frames, nowMs);
  }

  lemma {:induction false} ReadKeeps(cfg: Config, link: Link, s: Chassis, answers: seq<ReadStep>)
    requires Invariant(cfg, s)
    ensures Invariant(cfg, ReadSerial(cfg, link, s, answers))
    decreases |answers|
  {
    if answers != [] && s.open {
      match answers[0]
      case Data(bytes, nowMs) =>
        DataKeeps(cfg, link, s, bytes, nowMs);
        ReadKeeps(cfg, link, OnData(cfg, link, s, bytes, nowMs), answers[1..]);
      case ReadInterrupted => ReadKeeps(cfg, link, s, answers[1..]);
      case ReadFailed => CloseKeeps(cfg, s);
    }
  }

  lemma TimerKeeps(cfg: Config, link: Link, s: Chassis, opens: bool, nowMs: int, poll: Poll)
    requires Invariant(cfg, s)
    ensures Invariant(cfg, OnTimer(cfg, link, s, opens, nowMs, poll))
  {
    hide Latch, CloseSerial, OpenSerial, ReadSerial;
    OpenKeeps(cfg, s, opens);
    var polled := OpenSerial(cfg, s, opens);
    LatchKeeps(cfg, link, polled);
    var guarded :=
      if polled.autonomous && !polled.emergency.FreshAndClear(nowMs, cfg.emergencyTimeoutMs)
      then Latch(cfg, link, polled) else polled;
    if guarded.open {
      CloseKeeps(cfg, guarded);
      if poll.Readable? {
        ReadKeeps(cfg, link, guarded, poll.answers);
      }
    }
  }

  lemma ShutdownKeeps(cfg: Config, link: Link, s: Chassis)
    requires Invariant(cfg, s)
    ensures Invariant(cfg, OnShutdown(cfg, link, s)) && !OnShutdown(cfg, link, s).open
  {
    hide CloseSerial, Digest, Safe;
    var last := if !cfg.telemetryOnly && s.open && s.transmitted then TransmitSoftwareStop(cfg, link, s).0 else s;
    if s.open {
      if !cfg.telemetryOnly { StopSentKeeps(cfg, s); }
      CloseKeeps(cfg, Attempt(s));
    }
    ShutKeeps(cfg, last);
  }

  lemma ShutKeeps(cfg: Config, s: Chassis)
    requires Base(cfg, s) && FaultsHandled(s) && (s.open || Invariant(cfg, s))
    ensures Invariant(cfg, CloseSerial(s)) && !CloseSerial(s).open
  {
    if s.open {
      CloseKeeps(cfg, s);
    }
  }

  lemma StepKeeps(cfg: Config, link: Link, s: Chassis, e: Event)
    requires Invariant(cfg, s)
    ensures Invariant(cfg, Step(cfg, link, s, e))
  {
    match e
    case Timer(opens, nowMs, poll) => TimerKeeps(cfg, link, s, opens, nowMs, poll);
    case Shutdown => ShutdownKeeps(cfg, link, s);
    case GearCommand(requested) => GearKeeps(cfg, s, requested);
    case EmergencyStatus(active, nowMs) => EmergencyKeeps(cfg, link, s, active, nowMs);
    case ModeCommand(mode, nowMs) => if !cfg.telemetryOnly { ModeRequestKeeps(cfg, link, s, mode, nowMs); }
    case Control(input) => ControlKeeps(cfg, link, s, input);
  }

  /** Every reachable state satisfies the invariant, whatever the link does. */
  lemma {:induction false} RunsAreSafe(cfg: Config, link: Link, events: seq<Event>)
    ensures Invariant(cfg, Run(cfg, link, events))
  {
    if events != [] {
      RunsAreSafe(cfg, link, events[..|events| - 1]);
      StepKeeps(cfg, link, Run(cfg, link, events[..|events| - 1]), events[|events| - 1]);
    }
  }
}
