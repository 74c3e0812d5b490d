/**
  * The chassis node on its mutable fields, with the monitor and decoder objects it owns.
  * Each callback is proved to make exactly the step of `ChassisMachine`, so every theorem
  * about runs is about this object.
  */
module VehicleInterface {
  import opened Basics
  import opened SerialProtocol
  import opened FeedbackDecoder
  import opened VehicleState
  import opened ChassisJournal
  import opened ChassisMachine
  import opened ChassisSafety

  class RcVehicleInterface {
    const cfg: Config
    const link: Link
    const emergencyMonitor: EmergencyStatusMonitor
    const hallMonitor: HallFeedbackMonitor
    const decoder: FeedbackStreamDecoder

    var serialOpen: bool
    var openAttempted: bool
    var autonomousRequested: bool
    var hasTransmittedCommand: bool
    var safetyStopLatched: bool
    var safetyStopSent: bool
    var rcOverrideActive: bool
    var hasReceivedFeedback: bool
    var faultClearPending: bool
    var faultClearZeroSent: bool
    var faultClearSent: bool
    var logicalGear: Gear
    var lastTransmittedCommandStampNs: int
    var lastStatus: Status
    var writeAttempts: nat
    ghost var journal: Journal

    ghost function State(): Chassis
      reads this, emergencyMonitor, hallMonitor, decoder
    {
      Chassis(serialOpen, openAttempted, autonomousRequested, hasTransmittedCommand, safetyStopLatched,
              safetyStopSent, rcOverrideActive, hasReceivedFeedback, faultClearPending, faultClearZeroSent,
              faultClearSent, logicalGear, lastTransmittedCommandStampNs, lastStatus,
              emergencyMonitor.State(), hallMonitor.State(), decoder.buffer, decoder.stats, writeAttempts, journal)
    }

    predicate Wired() {
      emergencyMonitor.timeoutMs == cfg.emergencyTimeoutMs && hallMonitor.timeouts == cfg.hallTimeouts
    }

    /** The invariant of every reachable state. */
    ghost predicate Valid()
      reads this, emergencyMonitor, hallMonitor, decoder
    {
      Wired() && Invariant(cfg, State())
    }

    constructor (cfg: Config, link: Link)
      requires cfg.emergencyTimeoutMs > 0 && cfg.hallTimeouts.acquisitionMs > 0 && cfg.hallTimeouts.lossMs > 0
      ensures this.cfg == cfg && this.link == link && State() == START && Valid()
    {
      this.cfg, this.link := cfg, link;
      emergencyMonitor := new EmergencyStatusMonitor(cfg.emergencyTimeoutMs);
      hallMonitor := new HallFeedbackMonitor(cfg.hallTimeouts);
      decoder := new FeedbackStreamDecoder();
      serialOpen, openAttempted, autonomousRequested, hasTransmittedCommand := false, false, false, false;
      safetyStopLatched, safetyStopSent, rcOverrideActive, hasReceivedFeedback := false, false, false, false;
      faultClearPending, faultClearZeroSent, faultClearSent := false, false, false;
      logicalGear, lastTransmittedCommandStampNs, lastStatus := Park, NO_STAMP, NO_STATUS;
      writeAttempts, journal := 0, [];
    }

    /** The abstract state, field by field. */
    lemma Fields()
      ensures State().open == serialOpen && State().openAttempted == openAttempted
      ensures State().autonomous == autonomousRequested && State().transmitted == hasTransmittedCommand
      ensures State().stopSent == safetyStopSent && State().rcOverride == rcOverrideActive
      ensures State().hasFeedback == hasReceivedFeedback && State().status == lastStatus
      ensures State().clearPending == faultClearPending && State().clearZeroSent == faultClearZeroSent
      ensures State().clearSent == faultClearSent && State().gear == logicalGear
      ensures State().lastStampNs == lastTransmittedCommandStampNs && State().attempts == writeAttempts
      ensures State().emergency == emergencyMonitor.State() && State().hall == hallMonitor.State()
    {
    }

    /** What is remembered of the history, in the order it happened. */
    ghost method Record(e: Entry)
      modifies `journal
      ensures State() == Log(old(State()), e)
    {
      journal := journal + [e];
    }

    // ----- the port

    method TryOpenSerial(opens: bool)
      modifies this, decoder
      ensures State() == OpenSerial(cfg, old(State()), opens)
    {
      hide State, Log, MarkOpen, ChassisMachine.DiscardBuffer;
      Fields();
      if serialOpen {
        return;
      }
      if cfg.telemetryOnly && openAttempted {
        return;
      }
      NoteAttempt();
      if !opens {
        return;
      }
      DiscardBuffer();
      ConnectPort();
      Record(Opened);
    }

    method NoteAttempt()
      modifies `openAttempted
      ensures State() == old(State()).(openAttempted := cfg.telemetryOnly)
    {
      openAttempted := cfg.telemetryOnly;
    }

    method ConnectPort()
      modifies `serialOpen
      ensures State() == MarkOpen(old(State()))
    {
      serialOpen := true;
    }

    method DiscardBuffer()
      modifies decoder
      ensures State() == ChassisMachine.DiscardBuffer(old(State()))
    {
      decoder.DiscardBuffer();
    }

    method ResetFaultClearHandshake()
      modifies `faultClearPending, `faultClearZeroSent, `faultClearSent
      ensures State() == ResetHandshake(old(State()))
    {
      faultClearPending := false;
      faultClearZeroSent := false;
      faultClearSent := false;
    }

    method ResetHall()
      modifies hallMonitor
      ensures State() == ChassisMachine.ResetHall(old(State()))
    {
      hallMonitor.Reset();
    }

    method CloseSerial()
      modifies this, hallMonitor, decoder
      ensures State() == ChassisMachine.CloseSerial(old(State()))
    {
      hide State, Log, ChassisMachine.DropPort, ChassisMachine.DropConnection, ResetHandshake,
           ChassisMachine.ResetHall, ChassisMachine.DiscardBuffer;
      Fields();
      if !serialOpen {
        return;
      }
      DropPort();
      DropConnection();
      ResetFaultClearHandshake();
      ResetHall();
      DiscardBuffer();
      Record(Closed);
    }

    method DropPort()
      modifies `serialOpen, `autonomousRequested, `hasTransmittedCommand
      ensures State() == ChassisMachine.DropPort(old(State()))
    {
      serialOpen := false;
      autonomousRequested := false;
      hasTransmittedCommand := false;
    }

    method DropConnection()
      modifies `safetyStopSent, `rcOverrideActive, `hasReceivedFeedback
      ensures State() == ChassisMachine.DropConnection(old(State()))
    {
      safetyStopSent := false;
      rcOverrideActive := false;
      hasReceivedFeedback := false;
    }

    /**
      * What is logged is what the bytes encode. A failed write closes the port before the caller
      * learns of it.
      */
    method WriteFrame(frame: seq<Byte>, ghost sent: Entry) returns (ok: bool)
      requires SentCommand(sent).Some? && EncodeCommand(SentCommand(sent).value) == Some(frame)
      requires |frame| == COMMAND_SIZE
      modifies this, hallMonitor, decoder
      ensures (State(), ok) == ChassisMachine.WriteFrame(cfg, link, old(State()), sent)
    {
      hide State, Log, Attempt, ChassisMachine.CloseSerial, Delivers;
      Fields();
      if cfg.telemetryOnly {
        return false;
      }
      if !serialOpen {
        return false;
      }
      ghost var wire;
      ok, wire := PushBytes(frame, link(writeAttempts));
      CountAttempt();
      if ok {
        Record(sent);
      } else {
        CloseSerial();
      }
    }

    method CountAttempt()
      modifies `writeAttempts
      ensures State() == Attempt(old(State()))
    {
      writeAttempts := writeAttempts + 1;
    }

    /**
      * The write loop: partial writes advance `offset`, interruptions retry, anything else gives
      * up. `wire` is what the port took; a write takes no more than it was offered.
      */
    static method PushBytes(frame: seq<Byte>, answers: seq<WriteStep>) returns (ok: bool, ghost wire: seq<Byte>)
      ensures ok == Delivers(answers, 0, |frame|)
      ensures wire <= frame && (ok ==> wire == frame)
    {
      var offset: nat, i: nat := 0, 0;
      wire := [];
      while offset < |frame|
        invariant i <= |answers|
        invariant wire == frame[..if offset < |frame| then offset else |frame|]
        invariant Delivers(answers[i..], offset, |frame|) == Delivers(answers, 0, |frame|)
        decreases |answers| - i
      {
        if i == |answers| {
          return false, wire;
        }
        var answer := answers[i];
        i := i + 1;
        if answer.Wrote? && answer.n > 0 {
          wire := wire + (if answer.n < |frame| - offset then frame[offset..offset + answer.n] else frame[offset..]);
          offset := offset + answer.n;
          continue;
        }
        if answer.Interrupted? || answer.BlockedThenReady? {
          continue;
        }
        return false, wire;
      }
      return true, wire;
    }

    method TransmitSoftwareStop() returns (ok: bool)
      modifies this, hallMonitor, decoder
      ensures (State(), ok) == ChassisMachine.TransmitSoftwareStop(cfg, link, old(State()))
    {
      hide State, Stopped, ChassisMachine.WriteFrame;
      var frame := EncodeCommandFrame(SOFTWARE_STOP);
      EncodeFailsExactly(SOFTWARE_STOP);
      EncodeReadsBack(SOFTWARE_STOP);
      ok := WriteFrame(frame.value, StopSent);
      if !ok {
        return;
      }
      NoteStopped();
    }

    method NoteStopped()
      modifies `hasTransmittedCommand
      ensures State() == Stopped(old(State()))
    {
      hasTransmittedCommand := false;
    }

    method TransmitClearFault() returns (ok: bool)
      modifies this, hallMonitor, decoder
      ensures (State(), ok) == ChassisMachine.TransmitClearFault(cfg, link, old(State()))
    {
      hide State, ChassisMachine.WriteFrame;
      var frame := EncodeCommandFrame(CLEAR_FAULT);
      EncodeFailsExactly(CLEAR_FAULT);
      EncodeReadsBack(CLEAR_FAULT);
      ok := WriteFrame(frame.value, ClearSent);
    }

    method LatchSafetyStop()
      modifies this, hallMonitor, decoder
      ensures State() == Latch(cfg, link, old(State()))
    {
      hide State, ChassisMachine.SendStop, ChassisMachine.MarkLatched;
      MarkLatched();
      Fields();
      if !cfg.telemetryOnly && serialOpen && !safetyStopSent {
        var _ := SendStop();
      }
    }

    method SendStop() returns (ok: bool)
      modifies this, hallMonitor, decoder
      ensures (State(), ok) == ChassisMachine.SendStop(cfg, link, old(State()))
    {
      hide State, ChassisMachine.TransmitSoftwareStop, NoteStop;
      ok := TransmitSoftwareStop();
      NoteStopSent(ok);
    }

    method NoteStopSent(ok: bool)
      modifies `safetyStopSent
      ensures State() == NoteStop(old(State()), ok)
    {
      safetyStopSent := ok;
    }

    method MarkLatched()
      modifies this, hallMonitor
      ensures State() == ChassisMachine.MarkLatched(old(State()))
    {
      hide State, Log, ChassisMachine.SetLatch, ResetHandshake, ChassisMachine.ResetHall;
      SetLatch();
      ResetFaultClearHandshake();
      ResetHall();
      Record(StopLatched);
    }

    method SetLatch()
      modifies `safetyStopLatched, `autonomousRequested
      ensures State() == ChassisMachine.SetLatch(old(State()))
    {
      safetyStopLatched := true;
      autonomousRequested := false;
    }

    method LatchIfDriving(condition: bool)
      modifies this, hallMonitor, decoder
      ensures State() == ChassisMachine.LatchIfDriving(cfg, link, old(State()), condition)
    {
      hide State, Latch;
      Fields();
      if condition && (autonomousRequested || hasTransmittedCommand) {
        LatchSafetyStop();
      }
    }

    // ----- command callbacks; a telemetry-only node does not create their endpoints

    method OnGearCommand(requested: Option<Gear>)
      requires Valid() && !cfg.telemetryOnly
      modifies this
      ensures Valid() && State() == Step(cfg, link, old(State()), GearCommand(requested))
    {
      hide Invariant, State, Log, OnControl, OnTimer, OnShutdown, OnEmergency, OnModeRequest;
      GearKeeps(cfg, State(), requested);
      match requested {
        case None =>
        case Some(gear) =>
          SetGear(gear);
          Record(GearSet(gear));
      }
    }

    method SetGear(gear: Gear)
      modifies `logicalGear
      ensures State() == old(State()).(gear := gear)
    {
      logicalGear := gear;
    }

    method OnEmergencyStatus(active: bool, nowMs: int)
      requires Valid() && !cfg.telemetryOnly
      modifies this, emergencyMonitor, hallMonitor, decoder
      ensures Valid() && State() == Step(cfg, link, old(State()), EmergencyStatus(active, nowMs))
    {
      hide Invariant, State, ChassisMachine.SeeEmergency, Latch, OnControl, OnTimer, OnShutdown, OnGear, OnModeRequest;
      EmergencyKeeps(cfg, link, State(), active, nowMs);
      SeeEmergency(active, nowMs);
      if active {
        LatchSafetyStop();
      }
    }

    method SeeEmergency(active: bool, nowMs: int)
      modifies `journal, emergencyMonitor
      ensures State() == ChassisMachine.SeeEmergency(old(State()), active, nowMs)
    {
      hide State;
      ObserveEmergency(active, nowMs);
      LogEmergency(active, nowMs);
    }

    method ObserveEmergency(active: bool, nowMs: int)
      modifies emergencyMonitor
      ensures State() == old(State()).(emergency := EmergencyState(nowMs, true, active))
    {
      emergencyMonitor.Observe(active, nowMs);
    }

    ghost method LogEmergency(active: bool, nowMs: int)
      modifies `journal
      ensures State() == Log(old(State()), EmergencySeen(active, nowMs))
    {
      journal := journal + [EmergencySeen(active, nowMs)];
    }

    method OnControlModeRequest(mode: ModeRequest, nowMs: int) returns (success: bool)
      requires Valid() && !cfg.telemetryOnly
      modifies this, emergencyMonitor, hallMonitor, decoder
      ensures Valid() && State() == Step(cfg, link, old(State()), ModeCommand(mode, nowMs))
      ensures success == OnModeRequest(cfg, link, old(State()), mode, nowMs).1
    {
      hide Invariant, State, Grant, Release, AcceptsAutonomous, OnControl, OnTimer, OnShutdown, OnGear, OnEmergency;
      ModeRequestKeeps(cfg, link, State(), mode, nowMs);
      match mode {
        case RequestAutonomous =>
          success := RequestAutonomousMode(nowMs);
        case RequestManual =>
          success := ReleaseToManual();
        case RequestNoCommand =>
          success := ReleaseToManual();
        case RequestOther =>
          success := false;
      }
    }

    method RequestAutonomousMode(nowMs: int) returns (success: bool)
      requires Wired()
      modifies this, hallMonitor
      ensures (State(), success) == OnModeRequest(cfg, link, old(State()), RequestAutonomous, nowMs)
    {
      hide State, Grant, Release;
      Fields();
      if !serialOpen {
        return false;
      }
      var clear := emergencyMonitor.FreshAndClear(nowMs);
      if !clear {
        return false;
      }
      if !hasReceivedFeedback {
        return false;
      }
      if lastStatus.rcInputFault {
        return false;
      }
      GrantAutonomous(nowMs);
      success := true;
    }

    method GrantAutonomous(nowMs: int)
      modifies this, hallMonitor
      ensures State() == Grant(old(State()), nowMs)
    {
      hide State, Log, BeginHandshake, Authorised, ChassisMachine.ResetHall;
      ResetHall();
      Authorise();
      Record(Accepted(nowMs));
      BeginFaultClearHandshake();
    }

    method Authorise()
      modifies `safetyStopLatched, `safetyStopSent, `autonomousRequested
      ensures State() == Authorised(old(State()))
    {
      safetyStopLatched := false;
      safetyStopSent := false;
      autonomousRequested := true;
    }

    method BeginFaultClearHandshake()
      modifies `faultClearPending, `faultClearZeroSent, `faultClearSent
      ensures State() == BeginHandshake(old(State()))
    {
      hide State, ChassisMachine.OpenHandshake, ResetHandshake;
      Fields();
      if lastStatus.faultLatched {
        if !faultClearPending {
          OpenHandshake();
        }
      } else {
        ResetFaultClearHandshake();
      }
    }

    method OpenHandshake()
      modifies `faultClearPending, `faultClearZeroSent, `faultClearSent
      ensures State() == ChassisMachine.OpenHandshake(old(State()))
    {
      faultClearPending := true;
      faultClearZeroSent := false;
      faultClearSent := false;
    }

    method ReleaseToManual() returns (success: bool)
      modifies this, hallMonitor, decoder
      ensures (State(), success) == Release(cfg, link, old(State()))
    {
      hide State, ChassisMachine.SendStop, ChassisMachine.MarkReleased;
      Fields();
      var stopRequired := !safetyStopSent && (autonomousRequested || hasTransmittedCommand);
      var wasOpen := serialOpen;
      MarkReleased();
      if !wasOpen || !stopRequired {
        success := true;
      } else {
        success := SendStop();
      }
    }

    method MarkReleased()
      modifies this, hallMonitor
      ensures State() == ChassisMachine.MarkReleased(old(State()))
    {
      hide State, Log, Revoked, ResetHandshake, ChassisMachine.ResetHall;
      Revoke();
      ResetFaultClearHandshake();
      ResetHall();
      Record(Released);
    }

    method Revoke()
      modifies `autonomousRequested
      ensures State() == Revoked(old(State()))
    {
      autonomousRequested := false;
    }

    method OnControlCommand(m: ControlInput)
      requires Valid() && !cfg.telemetryOnly
      modifies this, emergencyMonitor, hallMonitor, decoder
      ensures Valid() && State() == Step(cfg, link, old(State()), Control(m))
    {
      hide Invariant, State, OnTimer, OnShutdown, OnGear, OnEmergency, OnModeRequest, OnControl;
      ControlKeeps(cfg, link, State(), m);
      HandleControl(m);
    }

    method HandleControl(m: ControlInput)
      requires Wired()
      modifies this, hallMonitor, decoder
      ensures State() == OnControl(cfg, link, old(State()), m)
    {
      hide State, Latch, SendMotion, MotionCommand, StampIsFresh, EncodeCommand, ControlToMotion;
      Fields();
      if !autonomousRequested {
        return;
      }
      var clear := emergencyMonitor.FreshAndClear(m.checkMs);
      if !clear {
        LatchSafetyStop();
        return;
      }
      if !serialOpen {
        return;
      }
      var current := CommandStampIsFresh(m.stampNs, m.clockNs);
      if !current {
        return;
      }
      var setpoint := ControlToMotion(m.velocity, m.steering, cfg.limits);
      if setpoint.None? {
        return;
      }
      ForwardMotion(setpoint.value, m);
    }

    method CommandStampIsFresh(stampNs: int, clockNs: int) returns (current: bool)
      ensures current == StampIsFresh(State(), stampNs, clockNs)
    {
      var age := clockNs - stampNs;
      if age < -FUTURE_STAMP_TOLERANCE_NS {
        return false;
      }
      if age > MAX_STAMP_AGE_NS {
        return false;
      }
      if stampNs < lastTransmittedCommandStampNs {
        return false;
      }
      return true;
    }

    /** Encodes and writes the motion command; an unencodable one is dropped. */
    method ForwardMotion(setpoint: Setpoint, m: ControlInput)
      modifies this, hallMonitor, decoder
      ensures var command := MotionCommand(old(State()), setpoint);
              State() == if EncodeCommand(command).None? then old(State())
                         else SendMotion(cfg, link, old(State()), command, m)
    {
      hide State, EncodeCommand, ChassisMachine.WriteFrame, ChassisMachine.NoteMotion;
      Fields();
      var speed, steering := 0.0, 0.0;
      if !faultClearPending {
        speed := if GearAllows(logicalGear, setpoint.speed) then setpoint.speed else 0.0;
        steering := setpoint.steering;
      }
      var command := ChassisCommand(Finite(speed), Finite(steering), true, false, false);
      var frame := EncodeCommandFrame(command);
      if frame.None? {
        return;
      }
      EncodeReadsBack(command);
      var ok := WriteFrame(frame.value, MotionSent(command, m.stampNs, m.checkMs));
      if ok {
        NoteMotion(speed, m);
      }
    }

    method NoteMotion(speed: real, m: ControlInput)
      modifies this, hallMonitor
      ensures State() == ChassisMachine.NoteMotion(old(State()), speed, m)
    {
      hide State, NoteZero, ChassisMachine.ResetHall, NoteCommand;
      NoteStamp(m.stampNs);
      Fields();
      if faultClearPending {
        NoteZeroSent();
        ResetHall();
      } else if rcOverrideActive {
        ResetHall();
      } else {
        NoteEffectiveCommand(speed, m.noteMs);
      }
    }

    method NoteStamp(stampNs: int)
      modifies `lastTransmittedCommandStampNs, `hasTransmittedCommand
      ensures State() == ChassisMachine.NoteStamp(old(State()), stampNs)
    {
      lastTransmittedCommandStampNs := stampNs;
      hasTransmittedCommand := true;
    }

    method NoteZeroSent()
      modifies `faultClearZeroSent
      ensures State() == NoteZero(old(State()))
    {
      faultClearZeroSent := true;
    }

    method NoteEffectiveCommand(speed: real, nowMs: int)
      modifies hallMonitor
      ensures State() == old(State()).(hall := NoteCommand(old(State()).hall, speed, nowMs))
    {
      hallMonitor.NoteEffectiveCommand(speed, nowMs);
    }

    // ----- feedback

    method PublishFeedback(feedback: ChassisFeedback, nowMs: int)
      requires Wired()
      modifies this, hallMonitor, decoder
      ensures State() == OnFeedback(cfg, link, old(State()), feedback, nowMs)
    {
      hide State, ChassisMachine.CheckFeedback, StepHandshake, WatchHall, ReadStatus, VelocityFeedback;
      var status := ReadStatus(feedback.statusBits);
      var velocity := VelocityFeedback(status, feedback.hallSpeed);
      CheckFeedback(status, velocity);
      StepFaultClear(status);
      WatchHallFeedback(status, velocity, nowMs);
    }

    method CheckFeedback(status: Status, velocity: VelocityState)
      modifies this, hallMonitor, decoder
      ensures State() == ChassisMachine.CheckFeedback(cfg, link, old(State()), status, velocity)
    {
      hide State, ChassisMachine.SeeTelemetry, ChassisMachine.LatchIfDriving, ChassisMachine.NoteStatus;
      SeeTelemetry(status);
      LatchIfDriving(velocity == Inconsistent);
      NoteStatus(status);
      LatchIfDriving(status.rcInputFault);
    }

    method NoteStatus(status: Status)
      modifies `lastStatus
      ensures State() == ChassisMachine.NoteStatus(old(State()), status)
    {
      lastStatus := status;
      Fields();
    }

    method SeeTelemetry(status: Status)
      modifies this
      ensures State() == ChassisMachine.SeeTelemetry(old(State()), status)
    {
      hasReceivedFeedback := true;
      rcOverrideActive := status.rcOverride;
      journal := journal + [Entry.Telemetry(status)];
    }

    method StepFaultClear(status: Status)
      modifies this, hallMonitor, decoder
      ensures State() == StepHandshake(cfg, link, old(State()), status)
    {
      hide State, ChassisMachine.TransmitClearFault, NoteClear, Latch, ResetHandshake;
      Fields();
      if !status.rcInputFault && faultClearPending {
        if status.faultLatched {
          if faultClearZeroSent && !faultClearSent && status.FaultClearPermitted() {
            var sent := TransmitClearFault();
            NoteClearSent(sent);
          }
        } else if status.ReportedMode() == Autonomous {
          ResetFaultClearHandshake();
        }
      } else if !status.rcInputFault && status.faultLatched && autonomousRequested {
        LatchSafetyStop();
      }
    }

    method NoteClearSent(ok: bool)
      modifies `faultClearSent
      ensures State() == NoteClear(old(State()), ok)
    {
      faultClearSent := ok;
    }

    method WatchHallFeedback(status: Status, velocity: VelocityState, nowMs: int)
      requires Wired()
      modifies this, hallMonitor, decoder
      ensures State() == WatchHall(cfg, link, old(State()), status, velocity, nowMs)
    {
      hide State, ChassisMachine.ResetHall, Latch, ObserveHall;
      Fields();
      if rcOverrideActive || status.commandTimeout || status.stopOverride || status.rcInputFault || status.faultLatched {
        ResetHall();
        return;
      }
      var decision := ObserveHallFeedback(velocity == MeasuredMotion, nowMs);
      if decision == Fault {
        LatchSafetyStop();
      }
    }

    method ObserveHallFeedback(valid: bool, nowMs: int) returns (decision: HallDecision)
      requires Wired()
      modifies hallMonitor
      ensures var (hall, d) := ObserveHall(old(State()).hall, valid, nowMs, cfg.hallTimeouts);
              State() == old(State()).(hall := hall) && decision == d
    {
      decision := hallMonitor.Observe(valid, nowMs);
    }

    method ReadSerial(answers: seq<ReadStep>)
      requires Wired() && serialOpen
      modifies this, hallMonitor, decoder
      ensures State() == ChassisMachine.ReadSerial(cfg, link, old(State()), answers)
    {
      hide State, OnData, ChassisMachine.CloseSerial;
      var i := 0;
      Fields();
      while i < |answers| && serialOpen
        invariant i <= |answers| && State().open == serialOpen
        invariant ChassisMachine.ReadSerial(cfg, link, State(), answers[i..])
               == ChassisMachine.ReadSerial(cfg, link, old(State()), answers)
      {
        var answer := answers[i];
        assert answers[i..][1..] == answers[i + 1..];
        i := i + 1;
        match answer {
          case Data(bytes, nowMs) => HandleData(bytes, nowMs);
          case ReadInterrupted =>
          case ReadFailed =>
            CloseSerial();
            return;
        }
        Fields();
      }
    }

    method HandleData(bytes: seq<Byte>, nowMs: int)
      requires Wired()
      modifies this, hallMonitor, decoder
      ensures State() == OnData(cfg, link, old(State()), bytes, nowMs)
    {
      hide State, OnBatch, Absorb;
      var frames := Decode(bytes);
      PublishBatch(frames, nowMs);
    }

    method Decode(bytes: seq<Byte>) returns (frames: seq<ChassisFeedback>)
      modifies decoder
      ensures State() == Absorb(old(State()), bytes) && frames == Scan(old(State()).buffer + bytes).frames
    {
      frames := decoder.Append(bytes);
    }

    /** The batch is worked off even if one of its frames closes the port. */
    method PublishBatch(frames: seq<ChassisFeedback>, nowMs: int)
      requires Wired()
      modifies this, hallMonitor, decoder
      ensures State() == OnBatch(cfg, link, old(State()), frames, nowMs)
    {
      hide State, OnFeedback;
      ghost var start := State();
      for k := 0 to |frames|
        invariant State() == OnBatch(cfg, link, start, frames[..k], nowMs)
      {
        assert frames[..k + 1][..k] == frames[..k];
        PublishFeedback(frames[k], nowMs);
      }
      assert frames[..|frames|] == frames;
    }

    // ----- timer and shutdown

    method OnSerialTimer(opens: bool, nowMs: int, poll: Poll)
      requires Valid()
      modifies this, emergencyMonitor, hallMonitor, decoder
      ensures Valid() && State() == Step(cfg, link, old(State()), Timer(opens, nowMs, poll))
    {
      hide Invariant, State, OnTimer, OnShutdown, OnGear, OnEmergency, OnModeRequest, OnControl;
      TimerKeeps(cfg, link, State(), opens, nowMs, poll);
      ServeSerial(opens, nowMs, poll);
    }

    method ServeSerial(opens: bool, nowMs: int, poll: Poll)
      requires Wired()
      modifies this, hallMonitor, decoder
      ensures State() == OnTimer(cfg, link, old(State()), opens, nowMs, poll)
    {
      hide State, Latch, OpenSerial, ChassisMachine.ReadSerial, ChassisMachine.CloseSerial;
      TryOpenSerial(opens);
      Fields();
      if autonomousRequested {
        var clear := emergencyMonitor.FreshAndClear(nowMs);
        if !clear {
          LatchSafetyStop();
        }
      }
      Fields();
      if serialOpen {
        match poll {
          case PollError => CloseSerial();
          case Hangup => CloseSerial();
          case Readable(answers) => ReadSerial(answers);
          case Quiet =>
        }
      }
    }

    /** The destructor: a last stop frame if an enabled frame is outstanding, then the close. */
    method OrderlyShutdown()
      requires Valid()
      modifies this, emergencyMonitor, hallMonitor, decoder
      ensures Valid() && !serialOpen && State() == Step(cfg, link, old(State()), Shutdown)
    {
      hide Invariant, State, OnTimer, OnGear, OnEmergency, OnModeRequest, OnControl,
           ChassisMachine.CloseSerial, ChassisMachine.TransmitSoftwareStop;
      ShutdownKeeps(cfg, link, State());
      Fields();
      if !cfg.telemetryOnly && serialOpen && hasTransmittedCommand {
        var _ := TransmitSoftwareStop();
      }
      CloseSerial();
      Fields();
    }
  }
}
