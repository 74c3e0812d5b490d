/** Motion is reachable, so what is proved about enabled frames is about something. */
module ChassisReach {
  import opened Basics
  import opened SerialProtocol
  import FeedbackDecoder
  import opened VehicleState
  import opened ChassisJournal
  import opened ChassisMachine
  import opened ChassisTheorems

  /** Open, covered by an emergency status that was clear at time 0, and nothing commanded yet. */
  predicate Waiting(s: Chassis) {
    && s.open && !s.autonomous && !s.transmitted && !s.clearPending && s.attempts == 0
    && s.lastStampNs == NO_STAMP && s.hall == HALL_IDLE && s.buffer == []
    && s.emergency == EmergencyState(0, true, false)
  }

  /** ... and after a first telemetry frame without faults. */
  predicate Heard(s: Chassis) {
    Waiting(s) && s.hasFeedback && s.status == NO_STATUS
  }

  const HEALTHY := Telemetry.Telemetry(0, 0, 0, 0, 0, 0, 0, 0, 0)

  lemma {:induction false} RunPrefix(cfg: Config, link: Link, events: seq<Event>, e: Event)
    ensures Run(cfg, link, events + [e]) == Step(cfg, link, Run(cfg, link, events), e)
  {
    assert (events + [e])[..|events|] == events;
  }

  lemma Opens(cfg: Config, link: Link)
    requires !cfg.telemetryOnly
    ensures var t := Step(cfg, link, Step(cfg, link, START, Timer(true, 0, Quiet)), EmergencyStatus(false, 0));
            Waiting(t)
  {
  }

  /** A chunk of one frame. */
  lemma OneFrame(cfg: Config, link: Link, s: Chassis, telemetry: Telemetry) returns (f: ChassisFeedback)
    requires s.open && !s.autonomous && s.buffer == [] && telemetry.Representable()
    ensures var frame := TelemetryFrame(telemetry);
            && f.statusBits == telemetry.statusBits && f.hallSpeed == telemetry.speed as real / 1000.0
            && OnTimer(cfg, link, s, false, 0, Readable([Data(frame, 0)])) == OnFeedback(cfg, link, Absorb(s, frame), f, 0)
            && Absorb(s, frame).buffer == []
  {
    hide Delivers, FeedbackDecoder.Scan, DecodeFeedback, OnFeedback, TelemetryFrame, WellFormed;
    var frame := TelemetryFrame(telemetry);
    TelemetryRoundTrip(telemetry);
    FeedbackDecoder.FrameScans(frame);
    assert s.buffer + frame == frame;
    f := DecodeFeedback(frame).value;
    var absorbed := Absorb(s, frame);
    var t := OnFeedback(cfg, link, absorbed, f, 0);
    assert OnBatch(cfg, link, absorbed, [f], 0) == t by {
      assert [f][..0] == [];
      assert OnBatch(cfg, link, absorbed, [], 0) == absorbed;
    }
    assert ReadSerial(cfg, link, s, [Data(frame, 0)]) == ReadSerial(cfg, link, t, []);
  }

  lemma Hears(cfg: Config, link: Link, s: Chassis)
    requires !cfg.telemetryOnly && cfg.emergencyTimeoutMs >= 0 && Waiting(s)
    ensures Heard(Step(cfg, link, s, Timer(false, 0, Readable([Data(TelemetryFrame(HEALTHY), 0)]))))
  {
    hide Delivers, OnFeedback, TelemetryFrame, FeedbackDecoder.Scan, OnTimer;
    var f := OneFrame(cfg, link, s, HEALTHY);
    HealthyFeedback(cfg, link, Absorb(s, TelemetryFrame(HEALTHY)), f);
  }

  lemma HealthyFeedback(cfg: Config, link: Link, s: Chassis, f: ChassisFeedback)
    requires Waiting(s) && f.statusBits == 0 && f.hallSpeed == 0.0
    ensures Heard(OnFeedback(cfg, link, s, f, 0))
  {
    hide Delivers, Latch;
    assert ReadStatus(0) == NO_STATUS;
  }

  lemma Authorises(cfg: Config, link: Link, s: Chassis, gear: Gear)
    requires !cfg.telemetryOnly && cfg.emergencyTimeoutMs >= 0 && Heard(s)
    ensures var t := Step(cfg, link, Step(cfg, link, s, GearCommand(Some(gear))), ModeCommand(RequestAutonomous, 0));
            Authorised(t, gear)
  {
    hide Delivers;
  }

  predicate Authorised(s: Chassis, gear: Gear) {
    && s.autonomous && s.gear == gear && s.open && !s.clearPending && !s.transmitted && !s.stopSent && s.attempts == 0
    && s.lastStampNs == NO_STAMP && s.emergency == EmergencyState(0, true, false) && s.buffer == []
  }

  /** A run into an authorized state: open, clear status, telemetry, gear, request. */
  lemma AuthorisationIsReachable(cfg: Config, link: Link, gear: Gear) returns (events: seq<Event>)
    requires !cfg.telemetryOnly && cfg.emergencyTimeoutMs >= 0
    ensures Authorised(Run(cfg, link, events), gear)
  {
    hide Step, Delivers, TelemetryFrame, Waiting, Heard, Authorised;
    var timer, clear := Timer(true, 0, Quiet), EmergencyStatus(false, 0);
    var hear := Timer(false, 0, Readable([Data(TelemetryFrame(HEALTHY), 0)]));
    var select, mode := GearCommand(Some(gear)), ModeCommand(RequestAutonomous, 0);
    RunPrefix(cfg, link, [], timer);
    RunPrefix(cfg, link, [] + [timer], clear);
    Opens(cfg, link);
    events := [] + [timer] + [clear];
    RunPrefix(cfg, link, events, hear);
    Hears(cfg, link, Run(cfg, link, events));
    events := events + [hear];
    RunPrefix(cfg, link, events, select);
    RunPrefix(cfg, link, events + [select], mode);
    Authorises(cfg, link, Run(cfg, link, events), gear);
    events := events + [select] + [mode];
  }

  // ----- motion

  function GearFor(speed: real): Gear {
    if speed < 0.0 then Reverse else Drive
  }

  function Message(speed: real, steering: real): ControlInput {
    ControlInput(Finite(speed), Finite(steering), 0, 0, 0, 0)
  }

  function Enabled(speed: real, steering: real): ChassisCommand {
    ChassisCommand(Finite(speed), Finite(steering), true, false, false)
  }

  lemma Drives(cfg: Config, link: Link, s: Chassis, speed: real, steering: real)
    requires !cfg.telemetryOnly && cfg.emergencyTimeoutMs >= 0 && Delivers(link(0), 0, COMMAND_SIZE)
    requires Authorised(s, GearFor(speed))
    requires WithinLimits(cfg.limits, speed, steering) && FitsWire(Finite(speed)) && FitsWire(Finite(steering))
    ensures Step(cfg, link, s, Control(Message(speed, steering))).journal
         == s.journal + [MotionSent(Enabled(speed, steering), 0, 0)]
  {
    hide Step, Delivers, EncodeCommand, FitsWire, ControlToMotion;
    DeliversExactly(link(0), 0, COMMAND_SIZE);
    EncodeFailsExactly(Enabled(speed, steering));
    ControlForwardsExactly(cfg, link, s, Message(speed, steering));
  }

  /** Any speed and steering within the limits, and on the wire, is reached by some run. */
  lemma MotionIsReachable(cfg: Config, link: Link, speed: real, steering: real) returns (events: seq<Event>)
    requires !cfg.telemetryOnly && cfg.emergencyTimeoutMs >= 0 && Delivers(link(0), 0, COMMAND_SIZE)
    requires WithinLimits(cfg.limits, speed, steering) && FitsWire(Finite(speed)) && FitsWire(Finite(steering))
    ensures var j := Run(cfg, link, events).journal;
            j != [] && j[|j| - 1] == MotionSent(Enabled(speed, steering), 0, 0)
  {
    hide Step, Delivers, FitsWire, WithinLimits, Authorised;
    events := AuthorisationIsReachable(cfg, link, GearFor(speed));
    Drives(cfg, link, Run(cfg, link, events), speed, steering);
    RunPrefix(cfg, link, events, Control(Message(speed, steering)));
    events := events + [Control(Message(speed, steering))];
  }

  // ----- telemetry that outlives its connection

  /** A frame with the live fault bit and nothing else. */
  const FAULTY := HEALTHY.(statusBits := 0x400)

  function Chunk(): seq<Byte> {
    TelemetryFrame(FAULTY) + TelemetryFrame(HEALTHY)
  }

  lemma TwoFrames() returns (faulty: ChassisFeedback, healthy: ChassisFeedback)
    ensures FeedbackDecoder.Scan(Chunk()).frames == [faulty, healthy] && FeedbackDecoder.Scan(Chunk()).rest == []
    ensures faulty.statusBits == 0x400 && faulty.hallSpeed == 0.0 && healthy.statusBits == 0 && healthy.hallSpeed == 0.0
  {
    hide DecodeFeedback, TelemetryFrame, WellFormed, FeedbackDecoder.Scan;
    TelemetryRoundTrip(FAULTY);
    TelemetryRoundTrip(HEALTHY);
    var first, second := TelemetryFrame(FAULTY), TelemetryFrame(HEALTHY);
    FeedbackDecoder.ScanSplits(first, second);
    FeedbackDecoder.FrameScans(first);
    FeedbackDecoder.FrameScans(second);
    assert [] + second == second;
    faulty, healthy := DecodeFeedback(first).value, DecodeFeedback(second).value;
  }

  /** Without a connection, but with the feedback flag set, right after the entry of a close and a telemetry frame. */
  predicate Stranded(s: Chassis) {
    && !s.open && s.hasFeedback && !s.autonomous && s.status == NO_STATUS && s.emergency == EmergencyState(0, true, false)
    && |s.journal| >= 2 && s.journal[|s.journal| - 2..] == [Closed, Entry.Telemetry(NO_STATUS)]
  }

  lemma FaultCloses(cfg: Config, link: Link, s: Chassis, f: ChassisFeedback)
    requires !cfg.telemetryOnly && !Delivers(link(0), 0, COMMAND_SIZE) && Authorised(s, Drive)
    requires f.statusBits == 0x400 && f.hallSpeed == 0.0
    ensures var t := OnFeedback(cfg, link, s, f, 0);
            && !t.open && !t.autonomous && !t.transmitted && !t.clearPending && t.emergency == s.emergency
            && t.journal != [] && t.journal[|t.journal| - 1] == Closed
  {
    hide Delivers;
    var status := ReadStatus(0x400);
    assert status.rcInputFault && !status.rcOverride;
    assert VelocityFeedback(status, 0.0) == Unavailable;
    var noted := NoteStatus(SeeTelemetry(s, status), status);
    assert CheckFeedback(cfg, link, s, status, Unavailable) == Latch(cfg, link, noted);
    assert Latch(cfg, link, noted) == SendStop(cfg, link, MarkLatched(noted)).0;
  }

  lemma HealthyStrands(cfg: Config, link: Link, s: Chassis, f: ChassisFeedback)
    requires !s.open && !s.autonomous && !s.transmitted && !s.clearPending && s.emergency == EmergencyState(0, true, false)
    requires s.journal != [] && s.journal[|s.journal| - 1] == Closed
    requires s.hall == HALL_IDLE && f.statusBits == 0 && f.hallSpeed == 0.0
    ensures Stranded(OnFeedback(cfg, link, s, f, 0))
  {
    hide Delivers, Latch;
    assert ReadStatus(0) == NO_STATUS;
  }

  lemma IdleAfterFault(cfg: Config, link: Link, s: Chassis, f: ChassisFeedback)
    requires f.statusBits == 0x400
    ensures OnFeedback(cfg, link, s, f, 0).hall == HALL_IDLE
  {
    hide Delivers, CheckFeedback, StepHandshake;
    assert ReadStatus(0x400).rcInputFault;
  }

  /** One read: a live-fault frame whose stop cannot be written, then a healthy frame. */
  lemma Strands(cfg: Config, link: Link, s: Chassis)
    requires !cfg.telemetryOnly && cfg.emergencyTimeoutMs >= 0 && !Delivers(link(0), 0, COMMAND_SIZE)
    requires Authorised(s, Drive)
    ensures Stranded(Step(cfg, link, s, Timer(false, 0, Readable([Data(Chunk(), 0)]))))
  {
    hide Delivers, FeedbackDecoder.Scan, OnFeedback, Chunk, Stranded;
    var faulty, healthy := TwoFrames();
    assert s.buffer + Chunk() == Chunk();
    var absorbed := Absorb(s, Chunk());
    FaultCloses(cfg, link, absorbed, faulty);
    IdleAfterFault(cfg, link, absorbed, faulty);
    var closed := OnFeedback(cfg, link, absorbed, faulty, 0);
    HealthyStrands(cfg, link, closed, healthy);
    var t := OnFeedback(cfg, link, closed, healthy, 0);
    assert OnBatch(cfg, link, absorbed, [faulty, healthy], 0) == t by {
      assert [faulty, healthy][..1] == [faulty] && [faulty][..0] == [];
      assert OnBatch(cfg, link, absorbed, [], 0) == absorbed;
      assert OnBatch(cfg, link, absorbed, [faulty], 0) == closed;
    }
    assert ReadSerial(cfg, link, s, [Data(Chunk(), 0)]) == ReadSerial(cfg, link, t, []);
  }

  lemma ReopensAndAccepts(cfg: Config, link: Link, s: Chassis)
    requires !cfg.telemetryOnly && cfg.emergencyTimeoutMs >= 0 && Stranded(s)
    ensures var t := Step(cfg, link, Step(cfg, link, s, Timer(true, 0, Quiet)), ModeCommand(RequestAutonomous, 0));
            t.autonomous && t.journal == s.journal + [Opened, Accepted(0)]
  {
    hide Delivers;
  }

  /**
    * A run whose last connection is accepted for AUTONOMOUS as the first thing on it: the only
    * telemetry since the close came from the same read as the frame that closed the port.
    */
  lemma FeedbackOutlivesClose(cfg: Config, link: Link) returns (events: seq<Event>)
    requires !cfg.telemetryOnly && cfg.emergencyTimeoutMs >= 0 && !Delivers(link(0), 0, COMMAND_SIZE)
    ensures var s := Run(cfg, link, events);
            && s.autonomous && |s.journal| >= 4
            && s.journal[|s.journal| - 4..] == [Closed, Entry.Telemetry(NO_STATUS), Opened, Accepted(0)]
  {
    hide Step, Delivers, Chunk, Authorised;
    var read := Timer(false, 0, Readable([Data(Chunk(), 0)]));
    var open, mode := Timer(true, 0, Quiet), ModeCommand(RequestAutonomous, 0);
    events := AuthorisationIsReachable(cfg, link, Drive);
    Strands(cfg, link, Run(cfg, link, events));
    RunPrefix(cfg, link, events, read);
    events := events + [read];
    ReopensAndAccepts(cfg, link, Run(cfg, link, events));
    RunPrefix(cfg, link, events, open);
    RunPrefix(cfg, link, events + [open], mode);
    events := events + [open] + [mode];
  }
}
