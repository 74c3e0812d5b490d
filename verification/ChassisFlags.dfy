/** What the stop, latch and override flags of the chassis node mean, told from its history. */
module ChassisFlags {
  import opened Basics
  import opened SerialProtocol
  import FeedbackDecoder
  import opened VehicleState
  import opened ChassisJournal
  import opened ChassisMachine

  // ----- the flags, read off the history

  /** A stop frame was written that no acceptance and no close followed. */
  predicate StopStands(j: Journal) {
    j != [] && (j[|j| - 1].StopSent?
                || (!j[|j| - 1].Accepted? && !j[|j| - 1].Closed? && StopStands(j[..|j| - 1])))
  }

  /** A latched stop that no acceptance followed. */
  predicate LatchStands(j: Journal) {
    j != [] && (j[|j| - 1].StopLatched? || (!j[|j| - 1].Accepted? && LatchStands(j[..|j| - 1])))
  }

  /** The latest telemetry since the latest close shows the remote control in charge. */
  predicate OverrideStands(j: Journal) {
    j != [] && (if j[|j| - 1].Telemetry? then j[|j| - 1].status.rcOverride
                else !j[|j| - 1].Closed? && OverrideStands(j[..|j| - 1]))
  }

  function Openings(j: Journal): nat {
    if j == [] then 0 else Openings(j[..|j| - 1]) + if j[|j| - 1].Opened? then 1 else 0
  }

  lemma Append(j: Journal, e: Entry)
    ensures StopStands(j + [e]) <==> e.StopSent? || (!e.Accepted? && !e.Closed? && StopStands(j))
    ensures LatchStands(j + [e]) <==> e.StopLatched? || (!e.Accepted? && LatchStands(j))
    ensures OverrideStands(j + [e]) <==> if e.Telemetry? then e.status.rcOverride else !e.Closed? && OverrideStands(j)
    ensures Openings(j + [e]) == Openings(j) + if e.Opened? then 1 else 0
  {
    assert (j + [e])[..|j|] == j;
  }

  predicate Flags(cfg: Config, s: Chassis) {
    && s.stopSent == StopStands(s.journal)
    && FlagsButStop(cfg, s)
  }

  predicate FlagsButStop(cfg: Config, s: Chassis) {
    && s.latched == LatchStands(s.journal) && s.rcOverride == OverrideStands(s.journal)
    && (!s.open ==> s.buffer == [])
    && (cfg.telemetryOnly ==> Openings(s.journal) <= if s.openAttempted then 1 else 0)
  }

  // ----- every step keeps that

  lemma CloseKeeps(cfg: Config, s: Chassis)
    requires FlagsButStop(cfg, s) && (!s.open ==> s.stopSent == StopStands(s.journal))
    ensures Flags(cfg, CloseSerial(s))
  {
    hide StopStands, LatchStands, OverrideStands, Openings;
    Append(s.journal, Closed);
  }

  lemma AttemptKeeps(cfg: Config, s: Chassis)
    ensures FlagsButStop(cfg, s) ==> FlagsButStop(cfg, Attempt(s))
    ensures Flags(cfg, s) ==> Flags(cfg, Attempt(s))
  {
    hide StopStands, LatchStands, OverrideStands, Openings;
  }

  lemma LogKeeps(cfg: Config, s: Chassis, e: Entry)
    requires e.MotionSent? || e.ClearSent? || e.StopSent? || e.EmergencySeen? || e.GearSet? || e.Released?
    ensures FlagsButStop(cfg, s) ==> FlagsButStop(cfg, Log(s, e))
    ensures Flags(cfg, s) && !e.StopSent? ==> Flags(cfg, Log(s, e))
    ensures e.StopSent? ==> StopStands(Log(s, e).journal)
  {
    hide StopStands, LatchStands, OverrideStands, Openings;
    Append(s.journal, e);
  }

  lemma WriteKeeps(cfg: Config, link: Link, s: Chassis, sent: Entry)
    requires Flags(cfg, s) && (sent.MotionSent? || sent.ClearSent? || sent.StopSent?)
    ensures var (t, ok) := WriteFrame(cfg, link, s, sent);
            && FlagsButStop(cfg, t) && (!sent.StopSent? || !ok ==> Flags(cfg, t))
            && (ok ==> t.open && (sent.StopSent? ==> StopStands(t.journal)))
  {
    hide FlagsButStop, StopStands, Delivers, CloseSerial, Log, Attempt;
    AttemptKeeps(cfg, s);
    LogKeeps(cfg, Attempt(s), sent);
    CloseKeeps(cfg, Attempt(s));
    OpenAfter(s, sent);
  }

  lemma OpenAfter(s: Chassis, sent: Entry)
    ensures Log(Attempt(s), sent).open == s.open && Attempt(s).open == s.open && Attempt(s).stopSent == s.stopSent
    ensures Attempt(s).journal == s.journal
  {
  }

  /** A failed write of a stop leaves a closed port, so no stop stands and the flag falls. */
  lemma SendStopKeeps(cfg: Config, link: Link, s: Chassis)
    requires Flags(cfg, s) && s.open && !cfg.telemetryOnly
    ensures Flags(cfg, SendStop(cfg, link, s).0)
  {
    hide FlagsButStop, StopStands, Delivers;
    WriteKeeps(cfg, link, s, StopSent);
    var (t, ok) := WriteFrame(cfg, link, s, StopSent);
    ClosedAfterFailure(cfg, link, s, StopSent);
    StoppedKeeps(cfg, t, ok);
  }

  lemma StoppedKeeps(cfg: Config, t: Chassis, ok: bool)
    requires FlagsButStop(cfg, t) && ok == StopStands(t.journal)
    ensures Flags(cfg, NoteStop(if ok then Stopped(t) else t, ok))
  {
    hide StopStands, LatchStands, OverrideStands, Openings;
  }

  lemma ClosedAfterFailure(cfg: Config, link: Link, s: Chassis, sent: Entry)
    requires s.open && !cfg.telemetryOnly
    ensures var (t, ok) := WriteFrame(cfg, link, s, sent); !ok ==> !t.stopSent && !t.open
  {
    hide Delivers;
  }

  lemma LatchKeeps(cfg: Config, link: Link, s: Chassis)
    requires Flags(cfg, s)
    ensures Flags(cfg, Latch(cfg, link, s))
  {
    hide Flags, SendStop;
    MarkLatchedKeeps(cfg, s);
    var latched := MarkLatched(s);
    if !cfg.telemetryOnly && latched.open && !latched.stopSent {
      SendStopKeeps(cfg, link, latched);
    }
  }

  lemma MarkLatchedKeeps(cfg: Config, s: Chassis)
    requires Flags(cfg, s)
    ensures Flags(cfg, MarkLatched(s))
  {
    hide StopStands, LatchStands, OverrideStands, Openings;
    Append(s.journal, StopLatched);
  }

  lemma LatchIfDrivingKeeps(cfg: Config, link: Link, s: Chassis, condition: bool)
    requires Flags(cfg, s)
    ensures Flags(cfg, LatchIfDriving(cfg, link, s, condition))
  {
    hide Flags, Latch;
    LatchKeeps(cfg, link, s);
  }

  lemma SameFlags(cfg: Config, s: Chassis, t: Chassis)
    requires Flags(cfg, s) && t.journal == s.journal && t.stopSent == s.stopSent && t.latched == s.latched
    requires t.rcOverride == s.rcOverride && t.openAttempted == s.openAttempted && t.open == s.open
    requires t.open || t.buffer == s.buffer
    ensures Flags(cfg, t)
  {
    hide StopStands, LatchStands, OverrideStands, Openings;
  }

  lemma SeeKeeps(cfg: Config, s: Chassis, status: Status)
    requires Flags(cfg, s)
    ensures Flags(cfg, SeeTelemetry(s, status))
  {
    hide StopStands, LatchStands, OverrideStands, Openings;
    Append(s.journal, Entry.Telemetry(status));
  }

  lemma CheckKeeps(cfg: Config, link: Link, s: Chassis, status: Status, velocity: VelocityState)
    requires Flags(cfg, s)
    ensures Flags(cfg, CheckFeedback(cfg, link, s, status, velocity))
  {
    hide Flags, LatchIfDriving, SeeTelemetry, NoteStatus;
    SeeKeeps(cfg, s, status);
    LatchIfDrivingKeeps(cfg, link, SeeTelemetry(s, status), velocity == Inconsistent);
    var checked := LatchIfDriving(cfg, link, SeeTelemetry(s, status), velocity == Inconsistent);
    NoteStatusKeeps(cfg, checked, status);
    LatchIfDrivingKeeps(cfg, link, NoteStatus(checked, status), status.rcInputFault);
  }

  lemma NoteStatusKeeps(cfg: Config, s: Chassis, status: Status)
    requires Flags(cfg, s)
    ensures Flags(cfg, NoteStatus(s, status))
  {
    hide Flags;
    SameFlags(cfg, s, NoteStatus(s, status));
  }

  lemma ClearKeeps(cfg: Config, link: Link, s: Chassis)
    requires Flags(cfg, s)
    ensures var (t, ok) := TransmitClearFault(cfg, link, s); Flags(cfg, NoteClear(t, ok))
  {
    hide Flags, WriteFrame;
    WriteKeeps(cfg, link, s, ClearSent);
    var (t, ok) := TransmitClearFault(cfg, link, s);
    SameFlags(cfg, t, NoteClear(t, ok));
  }

  lemma HandshakeKeeps(cfg: Config, link: Link, s: Chassis, status: Status)
    requires Flags(cfg, s)
    ensures Flags(cfg, StepHandshake(cfg, link, s, status))
  {
    hide Flags, Latch, TransmitClearFault;
    ClearKeeps(cfg, link, s);
    LatchKeeps(cfg, link, s);
    HandshakeOnly(cfg, s, false);
  }

  lemma WatchKeeps(cfg: Config, link: Link, s: Chassis, status: Status, velocity: VelocityState, nowMs: int)
    requires Flags(cfg, s)
    ensures Flags(cfg, WatchHall(cfg, link, s, status, velocity, nowMs))
  {
    hide Flags, Latch, ObserveHall, HallBlocked;
    var hall := ObserveHall(s.hall, velocity == MeasuredMotion, nowMs, cfg.hallTimeouts).0;
    HallOnly(cfg, s, HALL_IDLE);
    HallOnly(cfg, s, hall);
    LatchKeeps(cfg, link, s.(hall := hall));
  }

  lemma HallOnly(cfg: Config, s: Chassis, hall: HallState)
    requires Flags(cfg, s)
    ensures Flags(cfg, s.(hall := hall))
  {
    hide Flags;
    SameFlags(cfg, s, s.(hall := hall));
  }

  lemma FeedbackKeeps(cfg: Config, link: Link, s: Chassis, f: ChassisFeedback, nowMs: int)
    requires Flags(cfg, s)
    ensures Flags(cfg, OnFeedback(cfg, link, s, f, nowMs))
  {
    hide Flags, CheckFeedback, StepHandshake, WatchHall, ReadStatus;
    var status := ReadStatus(f.statusBits);
    var velocity := VelocityFeedback(status, f.hallSpeed);
    CheckKeeps(cfg, link, s, status, velocity);
    var checked := CheckFeedback(cfg, link, s, status, velocity);
    HandshakeKeeps(cfg, link, checked, status);
    WatchKeeps(cfg, link, StepHandshake(cfg, link, checked, status), status, velocity, nowMs);
  }

  lemma {:induction false} BatchKeeps(cfg: Config, link: Link, s: Chassis, frames: seq<ChassisFeedback>, nowMs: int)
    requires Flags(cfg, s)
    ensures Flags(cfg, OnBatch(cfg, link, s, frames, nowMs))
    decreases |frames|
  {
    hide Flags, OnFeedback;
    if frames != [] {
      var n := |frames| - 1;
      BatchKeeps(cfg, link, s, frames[..n], nowMs);
      FeedbackKeeps(cfg, link, OnBatch(cfg, link, s, frames[..n], nowMs), frames[n], nowMs);
    }
  }

  lemma {:induction false} ReadKeeps(cfg: Config, link: Link, s: Chassis, answers: seq<ReadStep>)
    requires Flags(cfg, s)
    ensures Flags(cfg, ReadSerial(cfg, link, s, answers))
    decreases |answers|
  {
    hide Flags, OnBatch, CloseSerial, FeedbackDecoder.Scan;
    if answers != [] && s.open {
      match answers[0]
      case Data(bytes, nowMs) =>
        SameFlags(cfg, s, Absorb(s, bytes));
        BatchKeeps(cfg, link, Absorb(s, bytes), FeedbackDecoder.Scan(s.buffer + bytes).frames, nowMs);
        ReadKeeps(cfg, link, OnData(cfg, link, s, bytes, nowMs), answers[1..]);
      case ReadInterrupted => ReadKeeps(cfg, link, s, answers[1..]);
      case ReadFailed => ShutKeeps(cfg, s);
    }
  }

  lemma ShutKeeps(cfg: Config, s: Chassis)
    requires Flags(cfg, s)
    ensures Flags(cfg, CloseSerial(s))
  {
    hide FlagsButStop, StopStands, CloseSerial;
    CloseKeeps(cfg, s);
  }

  lemma OpenKeeps(cfg: Config, s: Chassis, opens: bool)
    requires Flags(cfg, s)
    ensures Flags(cfg, OpenSerial(cfg, s, opens))
  {
    hide StopStands, LatchStands, OverrideStands, Openings;
    Append(s.journal, Opened);
  }

  lemma TimerKeeps(cfg: Config, link: Link, s: Chassis, opens: bool, nowMs: int, poll: Poll)
    requires Flags(cfg, s)
    ensures Flags(cfg, OnTimer(cfg, link, s, opens, nowMs, poll))
  {
    hide Flags, Latch, ReadSerial, OpenSerial, CloseSerial;
    var polled := OpenSerial(cfg, s, opens);
    OpenKeeps(cfg, s, opens);
    LatchKeeps(cfg, link, polled);
    var guarded :=
      if polled.autonomous && !polled.emergency.FreshAndClear(nowMs, cfg.emergencyTimeoutMs)
      then Latch(cfg, link, polled) else polled;
    ShutKeeps(cfg, guarded);
    if poll.Readable? { ReadKeeps(cfg, link, guarded, poll.answers); }
  }

  lemma GrantKeeps(cfg: Config, s: Chassis, nowMs: int)
    requires Flags(cfg, s)
    ensures Flags(cfg, Grant(s, nowMs))
  {
    hide Flags, BeginHandshake;
    var accepted := Log(Authorised(ResetHall(s)), Accepted(nowMs));
    AcceptedKeeps(cfg, s, nowMs);
    BegunKeeps(cfg, accepted);
  }

  lemma AcceptedKeeps(cfg: Config, s: Chassis, nowMs: int)
    requires Flags(cfg, s)
    ensures Flags(cfg, Log(Authorised(ResetHall(s)), Accepted(nowMs)))
  {
    hide StopStands, LatchStands, OverrideStands, Openings;
    Append(s.journal, Accepted(nowMs));
  }

  lemma BegunKeeps(cfg: Config, s: Chassis)
    requires Flags(cfg, s)
    ensures Flags(cfg, BeginHandshake(s))
  {
    hide Flags;
    HandshakeOnly(cfg, s, false);
    HandshakeOnly(cfg, s, true);
  }

  lemma HandshakeOnly(cfg: Config, s: Chassis, pending: bool)
    requires Flags(cfg, s)
    ensures Flags(cfg, s.(clearPending := pending, clearZeroSent := false, clearSent := false))
  {
    hide Flags;
    SameFlags(cfg, s, s.(clearPending := pending, clearZeroSent := false, clearSent := false));
  }

  lemma ReleaseKeeps(cfg: Config, link: Link, s: Chassis)
    requires Flags(cfg, s) && !cfg.telemetryOnly
    ensures Flags(cfg, Release(cfg, link, s).0)
  {
    hide Flags, SendStop;
    ReleasedKeeps(cfg, s);
    var released := MarkReleased(s);
    if released.open { SendStopKeeps(cfg, link, released); }
  }

  lemma ReleasedKeeps(cfg: Config, s: Chassis)
    requires Flags(cfg, s)
    ensures Flags(cfg, MarkReleased(s))
  {
    hide StopStands, LatchStands, OverrideStands, Openings;
    Append(s.journal, Released);
  }

  lemma ModeKeeps(cfg: Config, link: Link, s: Chassis, mode: ModeRequest, nowMs: int)
    requires Flags(cfg, s) && !cfg.telemetryOnly
    ensures Flags(cfg, OnModeRequest(cfg, link, s, mode, nowMs).0)
  {
    hide Flags, Grant, Release, AcceptsAutonomous;
    GrantKeeps(cfg, s, nowMs);
    ReleaseKeeps(cfg, link, s);
  }

  lemma EmergencyKeeps(cfg: Config, link: Link, s: Chassis, active: bool, nowMs: int)
    requires Flags(cfg, s)
    ensures Flags(cfg, OnEmergency(cfg, link, s, active, nowMs))
  {
    hide Flags, Latch;
    SeenKeeps(cfg, s, active, nowMs);
    LatchKeeps(cfg, link, SeeEmergency(s, active, nowMs));
  }

  lemma SeenKeeps(cfg: Config, s: Chassis, active: bool, nowMs: int)
    requires Flags(cfg, s)
    ensures Flags(cfg, SeeEmergency(s, active, nowMs))
  {
    hide StopStands, LatchStands, OverrideStands, Openings;
    Append(s.journal, EmergencySeen(active, nowMs));
  }

  lemma GearKeeps(cfg: Config, s: Chassis, gear: Option<Gear>)
    requires Flags(cfg, s)
    ensures Flags(cfg, OnGear(s, gear))
  {
    hide StopStands, LatchStands, OverrideStands, Openings;
    if gear.Some? { Append(s.journal, GearSet(gear.value)); }
  }

  lemma ControlKeeps(cfg: Config, link: Link, s: Chassis, m: ControlInput)
    requires Flags(cfg, s)
    ensures Flags(cfg, OnControl(cfg, link, s, m))
  {
    hide Flags, Latch, EncodeCommand, ControlToMotion, MotionCommand, SendMotion, StampIsFresh;
    LatchKeeps(cfg, link, s);
    var setpoint := ControlToMotion(m.velocity, m.steering, cfg.limits);
    if setpoint.Some? {
      CommandFinite(s, setpoint.value);
      SendMotionKeeps(cfg, link, s, MotionCommand(s, setpoint.value), m);
    }
  }

  lemma CommandFinite(s: Chassis, setpoint: Setpoint)
    ensures MotionCommand(s, setpoint).speed.Finite?
  {
  }

  lemma SendMotionKeeps(cfg: Config, link: Link, s: Chassis, command: ChassisCommand, m: ControlInput)
    requires Flags(cfg, s) && command.speed.Finite?
    ensures Flags(cfg, SendMotion(cfg, link, s, command, m))
  {
    hide Flags, WriteFrame, NoteMotion;
    var sent := MotionSent(command, m.stampNs, m.checkMs);
    WriteKeeps(cfg, link, s, sent);
    var written := WriteFrame(cfg, link, s, sent).0;
    NoteMotionKeeps(cfg, written, command.speed.value, m);
  }

  lemma NoteMotionKeeps(cfg: Config, s: Chassis, speed: real, m: ControlInput)
    requires Flags(cfg, s)
    ensures Flags(cfg, NoteMotion(s, speed, m))
  {
    hide Flags, NoteCommand;
    SameFlags(cfg, s, NoteMotion(s, speed, m));
  }

  lemma ShutdownKeeps(cfg: Config, link: Link, s: Chassis)
    requires Flags(cfg, s)
    ensures Flags(cfg, OnShutdown(cfg, link, s))
  {
    hide Flags, FlagsButStop, WriteFrame, CloseSerial, StopStands;
    ShutKeeps(cfg, s);
    WriteKeepsFlags(cfg, link, s);
    var (written, ok) := WriteFrame(cfg, link, s, StopSent);
    var t := TransmitSoftwareStop(cfg, link, s).0;
    StoppedOnly(cfg, written);
    if !cfg.telemetryOnly && s.open && s.transmitted {
      if ok { CloseKeeps(cfg, t); } else { ShutKeeps(cfg, t); }
    }
  }

  lemma WriteKeepsFlags(cfg: Config, link: Link, s: Chassis)
    requires Flags(cfg, s)
    ensures var (t, ok) := WriteFrame(cfg, link, s, StopSent);
            FlagsButStop(cfg, t) && (if ok then t.open else Flags(cfg, t))
  {
    hide WriteFrame, FlagsButStop, StopStands;
    WriteKeeps(cfg, link, s, StopSent);
  }

  lemma StoppedOnly(cfg: Config, s: Chassis)
    ensures FlagsButStop(cfg, s) ==> FlagsButStop(cfg, Stopped(s))
    ensures Stopped(s).open == s.open
  {
    hide StopStands, LatchStands, OverrideStands, Openings;
  }

  lemma StepKeeps(cfg: Config, link: Link, s: Chassis, e: Event)
    requires Flags(cfg, s)
    ensures Flags(cfg, Step(cfg, link, s, e))
  {
    hide Flags, OnTimer, OnShutdown, OnGear, OnEmergency, OnModeRequest, OnControl;
    match e
    case Timer(opens, nowMs, poll) => TimerKeeps(cfg, link, s, opens, nowMs, poll);
    case Shutdown => ShutdownKeeps(cfg, link, s);
    case GearCommand(requested) => GearKeeps(cfg, s, requested);
    case EmergencyStatus(active, nowMs) => EmergencyKeeps(cfg, link, s, active, nowMs);
    case ModeCommand(mode, nowMs) => if !cfg.telemetryOnly { ModeKeeps(cfg, link, s, mode, nowMs); }
    case Control(input) => ControlKeeps(cfg, link, s, input);
  }

  lemma {:induction false} RunKeeps(cfg: Config, link: Link, run: seq<Event>)
    ensures Flags(cfg, Run(cfg, link, run))
  {
    hide Step, Flags;
    if run == [] {
      assert Flags(cfg, START) by { StartKeeps(cfg); }
    } else {
      RunKeeps(cfg, link, run[..|run| - 1]);
      StepKeeps(cfg, link, Run(cfg, link, run[..|run| - 1]), run[|run| - 1]);
    }
  }

  lemma StartKeeps(cfg: Config)
    ensures Flags(cfg, START)
  {
  }

  // ----- the meaning of the flags

  /** Stop frame `k` stands: no acceptance and no close followed it. */
  predicate StopStandsSince(j: Journal, k: nat) {
    k < |j| && j[k].StopSent? && forall x :: k < x < |j| ==> !j[x].Accepted? && !j[x].Closed?
  }

  /** Latched stop `k` stands: no acceptance followed it. */
  predicate LatchStandsSince(j: Journal, k: nat) {
    k < |j| && j[k].StopLatched? && forall x :: k < x < |j| ==> !j[x].Accepted?
  }

  /** Telemetry `k` is the latest and no close followed it. */
  predicate LatestHeard(j: Journal, k: nat) {
    k < |j| && j[k].Telemetry? && forall x :: k < x < |j| ==> !j[x].Telemetry? && !j[x].Closed?
  }

  lemma {:induction false} StopStandsExactly(j: Journal)
    ensures StopStands(j) <==> exists k: nat :: StopStandsSince(j, k)
  {
    if j != [] {
      var n := |j| - 1;
      StopStandsExactly(j[..n]);
      if k: nat :| StopStandsSince(j[..n], k) && !j[n].Accepted? && !j[n].Closed? { assert StopStandsSince(j, k); }
      if k: nat :| StopStandsSince(j, k) && k < n { assert StopStandsSince(j[..n], k); }
      if j[n].StopSent? { assert StopStandsSince(j, n); }
    }
  }

  lemma {:induction false} LatchStandsExactly(j: Journal)
    ensures LatchStands(j) <==> exists k: nat :: LatchStandsSince(j, k)
  {
    if j != [] {
      var n := |j| - 1;
      LatchStandsExactly(j[..n]);
      if k: nat :| LatchStandsSince(j[..n], k) && !j[n].Accepted? { assert LatchStandsSince(j, k); }
      if k: nat :| LatchStandsSince(j, k) && k < n { assert LatchStandsSince(j[..n], k); }
      if j[n].StopLatched? { assert LatchStandsSince(j, n); }
    }
  }

  lemma {:induction false} OverrideExactly(j: Journal)
    ensures OverrideStands(j) <==> exists k: nat :: LatestHeard(j, k) && j[k].status.rcOverride
  {
    if j != [] {
      var n := |j| - 1;
      OverrideExactly(j[..n]);
      if j[n].Telemetry? {
        assert LatestHeard(j, n) && forall k: nat :: LatestHeard(j, k) ==> k == n;
      } else {
        assert forall k: nat :: LatestHeard(j, k) <==> LatestHeard(j[..n], k) && !j[n].Closed?;
      }
    }
  }

  /**
    * In every reachable state: the stop-sent flag is a stop frame that no acceptance or close
    * followed, the latch a latched stop that no acceptance followed, the override flag the latest
    * telemetry of the connection; a closed port has no buffered bytes.
    */
  lemma FlagsExactly(cfg: Config, link: Link, run: seq<Event>)
    ensures var s := Run(cfg, link, run);
            && (s.stopSent <==> exists k: nat :: StopStandsSince(s.journal, k))
            && (s.latched <==> exists k: nat :: LatchStandsSince(s.journal, k))
            && (s.rcOverride <==> exists k: nat :: LatestHeard(s.journal, k) && s.journal[k].status.rcOverride)
            && (!s.open ==> s.buffer == [])
  {
    hide Run;
    RunKeeps(cfg, link, run);
    StopStandsExactly(Run(cfg, link, run).journal);
    LatchStandsExactly(Run(cfg, link, run).journal);
    OverrideExactly(Run(cfg, link, run).journal);
  }

  lemma {:induction false} TwoOpenings(j: Journal, i: nat, k: nat)
    requires i < k < |j| && j[i].Opened? && j[k].Opened?
    ensures Openings(j) >= 2
  {
    var n := |j| - 1;
    if k < n {
      TwoOpenings(j[..n], i, k);
    } else {
      OneOpening(j[..n], i);
    }
  }

  lemma {:induction false} OneOpening(j: Journal, i: nat)
    requires i < |j| && j[i].Opened?
    ensures Openings(j) >= 1
  {
    if i < |j| - 1 {
      OneOpening(j[..|j| - 1], i);
    }
  }

  /** A telemetry-only node opens the port at most once. */
  lemma TelemetryOnlyOpensOnce(cfg: Config, link: Link, run: seq<Event>, i: nat, k: nat)
    requires cfg.telemetryOnly && i < |Run(cfg, link, run).journal| && k < |Run(cfg, link, run).journal|
    requires Run(cfg, link, run).journal[i].Opened? && Run(cfg, link, run).journal[k].Opened?
    ensures i == k
  {
    hide Run;
    RunKeeps(cfg, link, run);
    var j := Run(cfg, link, run).journal;
    if i < k { TwoOpenings(j, i, k); }
    if k < i { TwoOpenings(j, k, i); }
  }
}
