/**
  * The Hall monitor inside the chassis node. Every run feeds it one history of commands,
  * samples and resets, so what is proved of the monitor over histories holds of the node.
  */
module ChassisHall {
  import opened Basics
  import opened SerialProtocol
  import FeedbackDecoder
  import opened VehicleState
  import H = HallHistory
  import opened ChassisJournal
  import opened ChassisMachine

  type History = seq<H.Event>

  // ----- the history a run feeds to the monitor

  /** Entries that come with a reset of the monitor. */
  predicate Ends(e: Entry) {
    e.Closed? || e.StopLatched? || e.Released? || e.Accepted?
  }

  /** `after` extends `before` by such an entry. */
  predicate EndsBetween(before: Journal, after: Journal) {
    exists k :: |before| <= k < |after| && Ends(after[k])
  }

  function Endings(before: Journal, after: Journal): History {
    if EndsBetween(before, after) then [H.Reset] else []
  }

  /** The node before the monitor sees the frame: checks and handshake are done. */
  function Handled(cfg: Config, link: Link, s: Chassis, status: Status, velocity: VelocityState): Chassis {
    StepHandshake(cfg, link, CheckFeedback(cfg, link, s, status, velocity), status)
  }

  function WatchEvents(cfg: Config, link: Link, s: Chassis, status: Status, velocity: VelocityState, nowMs: int): History {
    (if HallBlocked(s, status) then [H.Reset] else [H.Sample(velocity == MeasuredMotion, nowMs)])
    + Endings(s.journal, WatchHall(cfg, link, s, status, velocity, nowMs).journal)
  }

  function StatusEvents(cfg: Config, link: Link, s: Chassis, status: Status, velocity: VelocityState, nowMs: int): History {
    var handled := Handled(cfg, link, s, status, velocity);
    Endings(s.journal, handled.journal) + WatchEvents(cfg, link, handled, status, velocity, nowMs)
  }

  function FeedbackEvents(cfg: Config, link: Link, s: Chassis, f: ChassisFeedback, nowMs: int): History {
    var status := ReadStatus(f.statusBits);
    StatusEvents(cfg, link, s, status, VelocityFeedback(status, f.hallSpeed), nowMs)
  }

  function BatchEvents(cfg: Config, link: Link, s: Chassis, frames: seq<ChassisFeedback>, nowMs: int): History {
    if frames == [] then []
    else
      var first := frames[..|frames| - 1];
      BatchEvents(cfg, link, s, first, nowMs)
      + FeedbackEvents(cfg, link, OnBatch(cfg, link, s, first, nowMs), frames[|frames| - 1], nowMs)
  }

  function DataEvents(cfg: Config, link: Link, s: Chassis, bytes: seq<Byte>, nowMs: int): History {
    BatchEvents(cfg, link, Absorb(s, bytes), FeedbackDecoder.Scan(s.buffer + bytes).frames, nowMs)
  }

  function ReadEvents(cfg: Config, link: Link, s: Chassis, answers: seq<ReadStep>): History
    decreases |answers|
  {
    if answers == [] || !s.open then []
    else
      match answers[0]
      case Data(bytes, nowMs) =>
        DataEvents(cfg, link, s, bytes, nowMs) + ReadEvents(cfg, link, OnData(cfg, link, s, bytes, nowMs), answers[1..])
      case ReadInterrupted => ReadEvents(cfg, link, s, answers[1..])
      case ReadFailed => Endings(s.journal, CloseSerial(s).journal)
  }

  /** The node after a tick has reopened the port and checked the emergency status. */
  function Guarded(cfg: Config, link: Link, s: Chassis, opens: bool, nowMs: int): Chassis {
    var polled := OpenSerial(cfg, s, opens);
    if polled.autonomous && !polled.emergency.FreshAndClear(nowMs, cfg.emergencyTimeoutMs)
    then Latch(cfg, link, polled) else polled
  }

  function PollEvents(cfg: Config, link: Link, s: Chassis, poll: Poll): History {
    if !s.open then []
    else
      match poll
      case Readable(answers) => ReadEvents(cfg, link, s, answers)
      case Quiet => []
      case _ => Endings(s.journal, CloseSerial(s).journal)
  }

  /** An enabled frame on the wire is a command, unless a handshake or the remote control holds the monitor. */
  function ControlEvents(s: Chassis, t: Chassis, m: ControlInput): History {
    if |t.journal| > |s.journal| && t.journal[|s.journal|].MotionSent? then
      if s.clearPending || s.rcOverride then [H.Reset]
      else
        match t.journal[|s.journal|].command.speed
        case Finite(speed) => [H.Command(speed, m.noteMs)]
        case NotFinite => []
    else Endings(s.journal, t.journal)
  }

  function StepEvents(cfg: Config, link: Link, s: Chassis, e: Event): History {
    match e
    case Timer(opens, nowMs, poll) =>
      var guarded := Guarded(cfg, link, s, opens, nowMs);
      Endings(s.journal, guarded.journal) + PollEvents(cfg, link, guarded, poll)
    case Control(input) => ControlEvents(s, Step(cfg, link, s, e), input)
    case _ => Endings(s.journal, Step(cfg, link, s, e).journal)
  }

  function RunHistory(cfg: Config, link: Link, run: seq<Event>): History {
    if run == [] then []
    else
      var before := run[..|run| - 1];
      RunHistory(cfg, link, before) + StepEvents(cfg, link, Run(cfg, link, before), run[|run| - 1])
  }

  // ----- a monitor that follows a history

  /** The node's monitor is where the history leads. */
  predicate Follows(cfg: Config, h: History, s: Chassis) {
    s.hall == H.StateAt(h, |h|, cfg.hallTimeouts)
  }

  lemma {:induction false} PrefixState(h: History, more: History, n: nat, timeouts: HallTimeouts)
    requires n <= |h|
    ensures H.StateAt(h + more, n, timeouts) == H.StateAt(h, n, timeouts)
  {
    if n > 0 {
      PrefixState(h, more, n - 1, timeouts);
    }
  }

  lemma FollowsReset(cfg: Config, h: History, s: Chassis)
    requires s.hall == HALL_IDLE
    ensures Follows(cfg, h + [H.Reset], s)
  {
  }

  lemma FollowsCommand(cfg: Config, h: History, s: Chassis, t: Chassis, speed: real, atMs: int)
    requires Follows(cfg, h, s) && t.hall == NoteCommand(s.hall, speed, atMs)
    ensures Follows(cfg, h + [H.Command(speed, atMs)], t)
  {
    PrefixState(h, [H.Command(speed, atMs)], |h|, cfg.hallTimeouts);
  }

  lemma FollowsSample(cfg: Config, h: History, s: Chassis, t: Chassis, valid: bool, atMs: int)
    requires Follows(cfg, h, s) && t.hall == ObserveHall(s.hall, valid, atMs, cfg.hallTimeouts).0
    ensures Follows(cfg, h + [H.Sample(valid, atMs)], t)
  {
    PrefixState(h, [H.Sample(valid, atMs)], |h|, cfg.hallTimeouts);
  }

  // ----- steps that reset the monitor exactly with an ending entry

  predicate ResetsOnly(s: Chassis, t: Chassis) {
    s.journal <= t.journal && t.hall == if EndsBetween(s.journal, t.journal) then HALL_IDLE else s.hall
  }

  lemma FollowsEndings(cfg: Config, h: History, s: Chassis, t: Chassis)
    requires Follows(cfg, h, s) && ResetsOnly(s, t)
    ensures Follows(cfg, h + Endings(s.journal, t.journal), t)
  {
    hide EndsBetween;
    if !EndsBetween(s.journal, t.journal) {
      assert h + [] == h;
    }
  }

  lemma Same(s: Chassis, t: Chassis)
    requires t.journal == s.journal && t.hall == s.hall
    ensures ResetsOnly(s, t)
  {
  }

  lemma Logs(s: Chassis, t: Chassis, e: Entry)
    requires t.journal == s.journal + [e] && t.hall == if Ends(e) then HALL_IDLE else s.hall
    ensures ResetsOnly(s, t)
  {
    assert t.journal[|s.journal|] == e;
  }

  lemma Chain(s: Chassis, t: Chassis, u: Chassis)
    requires ResetsOnly(s, t) && ResetsOnly(t, u)
    ensures ResetsOnly(s, u)
  {
    forall k | |s.journal| <= k < |t.journal| ensures u.journal[k] == t.journal[k] {
    }
    if EndsBetween(s.journal, t.journal) {
      var k :| |s.journal| <= k < |t.journal| && Ends(t.journal[k]);
      assert Ends(u.journal[k]);
    }
  }

  lemma CloseResets(s: Chassis)
    ensures ResetsOnly(s, CloseSerial(s))
  {
    if s.open { Logs(s, CloseSerial(s), Closed); } else { Same(s, CloseSerial(s)); }
  }

  lemma WriteResets(cfg: Config, link: Link, s: Chassis, sent: Entry)
    requires !Ends(sent)
    ensures ResetsOnly(s, WriteFrame(cfg, link, s, sent).0)
  {
    hide ResetsOnly, Delivers, CloseSerial, Attempt, Log;
    Same(s, s);
    SentResets(s, sent);
    AttemptResets(s);
    CloseResets(Attempt(s));
    Chain(s, Attempt(s), CloseSerial(Attempt(s)));
  }

  lemma AttemptResets(s: Chassis)
    ensures ResetsOnly(s, Attempt(s))
  {
    hide ResetsOnly;
    Same(s, Attempt(s));
  }

  lemma SentResets(s: Chassis, sent: Entry)
    requires !Ends(sent)
    ensures ResetsOnly(s, Log(Attempt(s), sent))
  {
    hide ResetsOnly;
    Logs(s, Log(Attempt(s), sent), sent);
  }

  lemma StopResets(cfg: Config, link: Link, s: Chassis)
    ensures ResetsOnly(s, TransmitSoftwareStop(cfg, link, s).0) && ResetsOnly(s, SendStop(cfg, link, s).0)
  {
    hide WriteFrame, EndsBetween;
    WriteResets(cfg, link, s, StopSent);
  }

  lemma LatchResets(cfg: Config, link: Link, s: Chassis)
    ensures ResetsOnly(s, Latch(cfg, link, s))
  {
    hide ResetsOnly, SendStop;
    var latched := MarkLatched(s);
    Logs(s, latched, StopLatched);
    if !cfg.telemetryOnly && latched.open && !latched.stopSent {
      StopResets(cfg, link, latched);
      Chain(s, latched, SendStop(cfg, link, latched).0);
    }
  }

  lemma LatchIfDrivingResets(cfg: Config, link: Link, s: Chassis, condition: bool)
    ensures ResetsOnly(s, LatchIfDriving(cfg, link, s, condition))
  {
    hide ResetsOnly, Latch;
    LatchResets(cfg, link, s);
    Same(s, s);
  }

  lemma CheckResets(cfg: Config, link: Link, s: Chassis, status: Status, velocity: VelocityState)
    ensures ResetsOnly(s, CheckFeedback(cfg, link, s, status, velocity))
  {
    hide ResetsOnly, LatchIfDriving;
    var seen := SeeTelemetry(s, status);
    Logs(s, seen, Entry.Telemetry(status));
    LatchIfDrivingResets(cfg, link, seen, velocity == Inconsistent);
    var checked := LatchIfDriving(cfg, link, seen, velocity == Inconsistent);
    Chain(s, seen, checked);
    var noted := NoteStatus(checked, status);
    Same(checked, noted);
    Chain(s, checked, noted);
    LatchIfDrivingResets(cfg, link, noted, status.rcInputFault);
    Chain(s, noted, LatchIfDriving(cfg, link, noted, status.rcInputFault));
  }

  lemma ClearResets(cfg: Config, link: Link, s: Chassis)
    ensures var (after, ok) := TransmitClearFault(cfg, link, s); ResetsOnly(s, NoteClear(after, ok))
  {
    hide WriteFrame, EndsBetween;
    WriteResets(cfg, link, s, ClearSent);
  }

  lemma HandshakeResets(cfg: Config, link: Link, s: Chassis, status: Status)
    ensures ResetsOnly(s, StepHandshake(cfg, link, s, status))
  {
    hide ResetsOnly, Latch, TransmitClearFault;
    ClearResets(cfg, link, s);
    LatchResets(cfg, link, s);
    Same(s, s);
    Same(s, ResetHandshake(s));
  }

  lemma HandledResets(cfg: Config, link: Link, s: Chassis, status: Status, velocity: VelocityState)
    ensures ResetsOnly(s, Handled(cfg, link, s, status, velocity))
  {
    hide ResetsOnly, CheckFeedback, StepHandshake;
    var checked := CheckFeedback(cfg, link, s, status, velocity);
    CheckResets(cfg, link, s, status, velocity);
    HandshakeResets(cfg, link, checked, status);
    Chain(s, checked, StepHandshake(cfg, link, checked, status));
  }

  lemma GuardResets(cfg: Config, link: Link, s: Chassis, opens: bool, nowMs: int)
    ensures ResetsOnly(s, Guarded(cfg, link, s, opens, nowMs))
  {
    hide ResetsOnly, Latch;
    var polled := OpenSerial(cfg, s, opens);
    OpenResets(cfg, s, opens);
    LatchResets(cfg, link, polled);
    Chain(s, polled, Latch(cfg, link, polled));
  }

  lemma OpenResets(cfg: Config, s: Chassis, opens: bool)
    ensures ResetsOnly(s, OpenSerial(cfg, s, opens))
  {
    hide ResetsOnly;
    var t := OpenSerial(cfg, s, opens);
    if t.journal == s.journal { Same(s, t); } else { Logs(s, t, Opened); }
  }

  lemma EmergencyResets(cfg: Config, link: Link, s: Chassis, active: bool, nowMs: int)
    ensures ResetsOnly(s, OnEmergency(cfg, link, s, active, nowMs))
  {
    hide ResetsOnly, Latch;
    var seen := SeeEmergency(s, active, nowMs);
    Logs(s, seen, EmergencySeen(active, nowMs));
    LatchResets(cfg, link, seen);
    Chain(s, seen, Latch(cfg, link, seen));
  }

  lemma ModeResets(cfg: Config, link: Link, s: Chassis, mode: ModeRequest, nowMs: int)
    ensures ResetsOnly(s, OnModeRequest(cfg, link, s, mode, nowMs).0)
  {
    hide ResetsOnly, Release, Grant;
    ReleaseResets(cfg, link, s);
    GrantResets(s, nowMs);
    Same(s, s);
  }

  lemma ReleaseResets(cfg: Config, link: Link, s: Chassis)
    ensures ResetsOnly(s, Release(cfg, link, s).0)
  {
    hide ResetsOnly, SendStop;
    var released := MarkReleased(s);
    Logs(s, released, Released);
    StopResets(cfg, link, released);
    Chain(s, released, SendStop(cfg, link, released).0);
  }

  lemma GrantResets(s: Chassis, nowMs: int)
    ensures ResetsOnly(s, Grant(s, nowMs))
  {
    hide ResetsOnly;
    Logs(s, Grant(s, nowMs), Accepted(nowMs));
  }

  lemma GearResets(s: Chassis, gear: Option<Gear>)
    ensures ResetsOnly(s, OnGear(s, gear))
  {
    hide ResetsOnly;
    match gear
    case None => Same(s, s);
    case Some(g) => Logs(s, OnGear(s, gear), GearSet(g));
  }

  lemma ShutdownResets(cfg: Config, link: Link, s: Chassis)
    ensures ResetsOnly(s, OnShutdown(cfg, link, s))
  {
    hide ResetsOnly, TransmitSoftwareStop, CloseSerial;
    var t := TransmitSoftwareStop(cfg, link, s).0;
    StopResets(cfg, link, s);
    CloseResets(s);
    CloseResets(t);
    Chain(s, t, CloseSerial(t));
  }

  // ----- the monitor follows

  lemma WatchFollows(cfg: Config, link: Link, h: History, s: Chassis, status: Status, velocity: VelocityState, nowMs: int)
    requires Follows(cfg, h, s)
    ensures Follows(cfg, h + WatchEvents(cfg, link, s, status, velocity, nowMs),
                    WatchHall(cfg, link, s, status, velocity, nowMs))
  {
    hide Follows, Latch, Endings, HallBlocked;
    var valid := velocity == MeasuredMotion;
    var t := WatchHall(cfg, link, s, status, velocity, nowMs);
    if HallBlocked(s, status) {
      FollowsReset(cfg, h, ResetHall(s));
      Same(ResetHall(s), t);
      FollowsEndings(cfg, h + [H.Reset], ResetHall(s), t);
    } else {
      var seen := s.(hall := ObserveHall(s.hall, valid, nowMs, cfg.hallTimeouts).0);
      FollowsSample(cfg, h, s, seen, valid, nowMs);
      LatchResets(cfg, link, seen);
      Same(seen, seen);
      FollowsEndings(cfg, h + [H.Sample(valid, nowMs)], seen, t);
    }
    Joined(h, if HallBlocked(s, status) then [H.Reset] else [H.Sample(valid, nowMs)], Endings(s.journal, t.journal));
  }

  lemma Joined(h: History, first: History, second: History)
    ensures (h + first) + second == h + (first + second)
  {
  }

  lemma FeedbackFollows(cfg: Config, link: Link, h: History, s: Chassis, f: ChassisFeedback, nowMs: int)
    requires Follows(cfg, h, s)
    ensures Follows(cfg, h + FeedbackEvents(cfg, link, s, f, nowMs), OnFeedback(cfg, link, s, f, nowMs))
  {
    hide Follows, ResetsOnly, CheckFeedback, StepHandshake, WatchHall, WatchEvents, Endings;
    var status := ReadStatus(f.statusBits);
    var velocity := VelocityFeedback(status, f.hallSpeed);
    var handled := Handled(cfg, link, s, status, velocity);
    HandledResets(cfg, link, s, status, velocity);
    FollowsEndings(cfg, h, s, handled);
    var g := h + Endings(s.journal, handled.journal);
    WatchFollows(cfg, link, g, handled, status, velocity, nowMs);
    Joined(h, Endings(s.journal, handled.journal), WatchEvents(cfg, link, handled, status, velocity, nowMs));
  }

  lemma {:induction false} BatchFollows(cfg: Config, link: Link, h: History, s: Chassis, frames: seq<ChassisFeedback>, nowMs: int)
    requires Follows(cfg, h, s)
    ensures Follows(cfg, h + BatchEvents(cfg, link, s, frames, nowMs), OnBatch(cfg, link, s, frames, nowMs))
    decreases |frames|
  {
    hide Follows, FeedbackEvents, OnFeedback;
    if frames == [] {
      assert h + [] == h;
    } else {
      var n := |frames| - 1;
      BatchFollows(cfg, link, h, s, frames[..n], nowMs);
      var done, before := OnBatch(cfg, link, s, frames[..n], nowMs), BatchEvents(cfg, link, s, frames[..n], nowMs);
      FeedbackFollows(cfg, link, h + before, done, frames[n], nowMs);
      Joined(h, before, FeedbackEvents(cfg, link, done, frames[n], nowMs));
    }
  }

  lemma DataFollows(cfg: Config, link: Link, h: History, s: Chassis, bytes: seq<Byte>, nowMs: int)
    requires Follows(cfg, h, s)
    ensures Follows(cfg, h + DataEvents(cfg, link, s, bytes, nowMs), OnData(cfg, link, s, bytes, nowMs))
  {
    hide BatchEvents, OnBatch;
    BatchFollows(cfg, link, h, Absorb(s, bytes), FeedbackDecoder.Scan(s.buffer + bytes).frames, nowMs);
  }

  lemma {:induction false} ReadFollows(cfg: Config, link: Link, h: History, s: Chassis, answers: seq<ReadStep>)
    requires Follows(cfg, h, s)
    ensures Follows(cfg, h + ReadEvents(cfg, link, s, answers), ReadSerial(cfg, link, s, answers))
    decreases |answers|
  {
    hide Follows, ResetsOnly, DataEvents, OnData, CloseSerial, Endings;
    if answers == [] || !s.open {
      assert h + [] == h;
    } else {
      match answers[0]
      case Data(bytes, nowMs) =>
        var t, first := OnData(cfg, link, s, bytes, nowMs), DataEvents(cfg, link, s, bytes, nowMs);
        DataFollows(cfg, link, h, s, bytes, nowMs);
        ReadFollows(cfg, link, h + first, t, answers[1..]);
        Joined(h, first, ReadEvents(cfg, link, t, answers[1..]));
      case ReadInterrupted => ReadFollows(cfg, link, h, s, answers[1..]);
      case ReadFailed =>
        CloseResets(s);
        FollowsEndings(cfg, h, s, CloseSerial(s));
    }
  }

  lemma TimerFollows(cfg: Config, link: Link, h: History, s: Chassis, opens: bool, nowMs: int, poll: Poll)
    requires Follows(cfg, h, s)
    ensures Follows(cfg, h + StepEvents(cfg, link, s, Timer(opens, nowMs, poll)), OnTimer(cfg, link, s, opens, nowMs, poll))
  {
    hide Follows, ResetsOnly, ReadEvents, ReadSerial, CloseSerial, Endings, OpenSerial, Latch;
    var guarded := Guarded(cfg, link, s, opens, nowMs);
    GuardResets(cfg, link, s, opens, nowMs);
    FollowsEndings(cfg, h, s, guarded);
    var first := Endings(s.journal, guarded.journal);
    var g := h + first;
    assert g + [] == g;
    CloseResets(guarded);
    FollowsEndings(cfg, g, guarded, CloseSerial(guarded));
    if poll.Readable? {
      ReadFollows(cfg, link, g, guarded, poll.answers);
    }
    Joined(h, first, PollEvents(cfg, link, guarded, poll));
  }

  lemma ControlFollows(cfg: Config, link: Link, h: History, s: Chassis, m: ControlInput)
    requires Follows(cfg, h, s)
    ensures Follows(cfg, h + ControlEvents(s, OnControl(cfg, link, s, m), m), OnControl(cfg, link, s, m))
  {
    hide Follows, ResetsOnly, Latch, Endings, EncodeCommand, ControlToMotion, MotionCommand, SendMotion;
    var t := OnControl(cfg, link, s, m);
    if t == s {
      Same(s, s);
      FollowsEndings(cfg, h, s, s);
    } else if t == Latch(cfg, link, s) {
      LatchResets(cfg, link, s);
      LatchFirst(cfg, link, s);
      FollowsEndings(cfg, h, s, t);
    } else {
      var setpoint := ControlToMotion(m.velocity, m.steering, cfg.limits).value;
      CommandFinite(s, setpoint);
      MotionFollows(cfg, link, h, s, MotionCommand(s, setpoint), m);
    }
  }

  lemma CommandFinite(s: Chassis, setpoint: Setpoint)
    ensures MotionCommand(s, setpoint).speed.Finite?
  {
  }

  lemma LatchFirst(cfg: Config, link: Link, s: Chassis)
    ensures var j := Latch(cfg, link, s).journal; |j| > |s.journal| && j[|s.journal|] == StopLatched
  {
    hide SendStop;
    var latched := MarkLatched(s);
    StopResets(cfg, link, latched);
    assert latched.journal[|s.journal|] == StopLatched;
  }

  lemma MotionFollows(cfg: Config, link: Link, h: History, s: Chassis, command: ChassisCommand, m: ControlInput)
    requires Follows(cfg, h, s) && command.speed.Finite?
    ensures var t := SendMotion(cfg, link, s, command, m); Follows(cfg, h + ControlEvents(s, t, m), t)
  {
    hide Follows, ResetsOnly, Endings, Delivers, ControlEvents, NoteMotion, CloseSerial, Attempt, Log;
    var sent := MotionSent(command, m.stampNs, m.checkMs);
    var t := SendMotion(cfg, link, s, command, m);
    if !cfg.telemetryOnly && s.open && Delivers(link(s.attempts), 0, COMMAND_SIZE) {
      NotedFollows(cfg, h, s, command, m);
    } else {
      WriteResets(cfg, link, s, sent);
      FollowsEndings(cfg, h, s, t);
      UnsentEvents(s, t, m);
    }
  }

  lemma NotedFollows(cfg: Config, h: History, s: Chassis, command: ChassisCommand, m: ControlInput)
    requires Follows(cfg, h, s) && command.speed.Finite?
    ensures var t := NoteMotion(Log(Attempt(s), MotionSent(command, m.stampNs, m.checkMs)), command.speed.value, m);
            Follows(cfg, h + ControlEvents(s, t, m), t)
  {
    hide Follows, Endings, NoteCommand;
    var sent := MotionSent(command, m.stampNs, m.checkMs);
    var t := NoteMotion(Log(Attempt(s), sent), command.speed.value, m);
    assert t.journal == s.journal + [sent] && t.journal[|s.journal|] == sent;
    if s.clearPending || s.rcOverride {
      FollowsReset(cfg, h, t);
    } else {
      FollowsCommand(cfg, h, s, t, command.speed.value, m.noteMs);
    }
  }

  lemma UnsentEvents(s: Chassis, t: Chassis, m: ControlInput)
    requires t == s || t == CloseSerial(Attempt(s))
    ensures ControlEvents(s, t, m) == Endings(s.journal, t.journal)
  {
  }

  lemma StepFollows(cfg: Config, link: Link, h: History, s: Chassis, e: Event)
    requires Follows(cfg, h, s)
    ensures Follows(cfg, h + StepEvents(cfg, link, s, e), Step(cfg, link, s, e))
  {
    hide Follows, ResetsOnly, Endings, OnTimer, OnControl, OnEmergency, OnModeRequest, OnGear, OnShutdown;
    Same(s, s);
    FollowsEndings(cfg, h, s, s);
    match e
    case Timer(opens, nowMs, poll) => TimerFollows(cfg, link, h, s, opens, nowMs, poll);
    case Control(input) => ControlFollows(cfg, link, h, s, input);
    case EmergencyStatus(active, nowMs) =>
      EmergencyResets(cfg, link, s, active, nowMs);
      FollowsEndings(cfg, h, s, Step(cfg, link, s, e));
    case ModeCommand(mode, nowMs) =>
      ModeResets(cfg, link, s, mode, nowMs);
      FollowsEndings(cfg, h, s, Step(cfg, link, s, e));
    case GearCommand(requested) =>
      GearResets(s, requested);
      FollowsEndings(cfg, h, s, Step(cfg, link, s, e));
    case Shutdown =>
      ShutdownResets(cfg, link, s);
      FollowsEndings(cfg, h, s, Step(cfg, link, s, e));
  }

  /** After every run the node's monitor is where the run's history leads. */
  lemma {:induction false} HallFollows(cfg: Config, link: Link, run: seq<Event>)
    ensures Run(cfg, link, run).hall
         == H.StateAt(RunHistory(cfg, link, run), |RunHistory(cfg, link, run)|, cfg.hallTimeouts)
    decreases |run|
  {
    hide Step, StepEvents;
    if run != [] {
      var before, e := run[..|run| - 1], run[|run| - 1];
      HallFollows(cfg, link, before);
      StepFollows(cfg, link, RunHistory(cfg, link, before), Run(cfg, link, before), e);
    }
  }

  // ----- Hall faults of a run

  /** The node in the middle of a timer tick of a run: some answers read, some frames of the next chunk worked off. */
  datatype Point = Point(
    run: seq<Event>, opens: bool, tickMs: int, answers: seq<ReadStep>, bytes: seq<Byte>, nowMs: int, frames: nat)
  {
    function Read(cfg: Config, link: Link): Chassis {
      ReadSerial(cfg, link, Guarded(cfg, link, Run(cfg, link, run), opens, tickMs), answers)
    }

    function Chunk(cfg: Config, link: Link): seq<ChassisFeedback> {
      FeedbackDecoder.Scan(Read(cfg, link).buffer + bytes).frames
    }

    function Node(cfg: Config, link: Link): Chassis
      requires frames <= |Chunk(cfg, link)|
    {
      OnBatch(cfg, link, Absorb(Read(cfg, link), bytes), Chunk(cfg, link)[..frames], nowMs)
    }

    function MonitorHistory(cfg: Config, link: Link): History
      requires frames <= |Chunk(cfg, link)|
    {
      var s := Run(cfg, link, run);
      var guarded := Guarded(cfg, link, s, opens, tickMs);
      RunHistory(cfg, link, run) + Endings(s.journal, guarded.journal) + ReadEvents(cfg, link, guarded, answers)
      + BatchEvents(cfg, link, Absorb(Read(cfg, link), bytes), Chunk(cfg, link)[..frames], nowMs)
    }
  }

  lemma PointFollows(cfg: Config, link: Link, p: Point)
    requires p.frames <= |p.Chunk(cfg, link)|
    ensures Follows(cfg, p.MonitorHistory(cfg, link), p.Node(cfg, link))
  {
    hide ReadSerial, ReadEvents, OnBatch, BatchEvents, Endings, ResetsOnly, Latch, OpenSerial, FeedbackDecoder.Scan;
    var s := Run(cfg, link, p.run);
    var guarded := Guarded(cfg, link, s, p.opens, p.tickMs);
    HallFollows(cfg, link, p.run);
    GuardResets(cfg, link, s, p.opens, p.tickMs);
    FollowsEndings(cfg, RunHistory(cfg, link, p.run), s, guarded);
    var h := RunHistory(cfg, link, p.run) + Endings(s.journal, guarded.journal);
    ReadFollows(cfg, link, h, guarded, p.answers);
    var g := h + ReadEvents(cfg, link, guarded, p.answers);
    BatchFollows(cfg, link, g, Absorb(p.Read(cfg, link), p.bytes), p.Chunk(cfg, link)[..p.frames], p.nowMs);
  }

  predicate LatchesBetween(before: Journal, after: Journal) {
    exists k :: |before| <= k < |after| && after[k].StopLatched?
  }

  lemma WatchLatchesExactly(cfg: Config, link: Link, s: Chassis, status: Status, velocity: VelocityState, nowMs: int)
    ensures LatchesBetween(s.journal, WatchHall(cfg, link, s, status, velocity, nowMs).journal)
            <==> !HallBlocked(s, status)
                 && ObserveHall(s.hall, velocity == MeasuredMotion, nowMs, cfg.hallTimeouts).1 == Fault
  {
    hide Latch, HallBlocked, ObserveHall;
    var seen := s.(hall := ObserveHall(s.hall, velocity == MeasuredMotion, nowMs, cfg.hallTimeouts).0);
    LatchFirst(cfg, link, seen);
  }

  /** The history the monitor has seen when it comes to the next frame of a point. */
  function SeenAt(cfg: Config, link: Link, p: Point): History
    requires p.frames < |p.Chunk(cfg, link)|
  {
    var status := ReadStatus(p.Chunk(cfg, link)[p.frames].statusBits);
    var velocity := VelocityFeedback(status, p.Chunk(cfg, link)[p.frames].hallSpeed);
    p.MonitorHistory(cfg, link)
    + Endings(p.Node(cfg, link).journal, Handled(cfg, link, p.Node(cfg, link), status, velocity).journal)
  }

  /**
    * In every run, a frame makes the node latch for its Hall reading exactly if nothing blocks
    * the monitor, the frame carries no measured motion, and the history of the run says overdue.
    */
  lemma HallFaultsExactly(cfg: Config, link: Link, p: Point)
    requires p.frames < |p.Chunk(cfg, link)|
    ensures var s, f, h := p.Node(cfg, link), p.Chunk(cfg, link)[p.frames], SeenAt(cfg, link, p);
            var status := ReadStatus(f.statusBits);
            var velocity := VelocityFeedback(status, f.hallSpeed);
            var handled := Handled(cfg, link, s, status, velocity);
            LatchesBetween(handled.journal, OnFeedback(cfg, link, s, f, p.nowMs).journal)
            <==> && !HallBlocked(handled, status) && velocity != MeasuredMotion
                 && H.Direction(h, |h|) != 0 && H.Overdue(h, |h|, p.nowMs, cfg.hallTimeouts)
  {
    hide LatchesBetween, HallBlocked, ReadStatus, VelocityFeedback, Endings, ResetsOnly, StepHandshake, CheckFeedback,
      WatchHall, ReadSerial, OnBatch, BatchEvents, ReadEvents, H.Overdue, ObserveHall;
    var s, f, h := p.Node(cfg, link), p.Chunk(cfg, link)[p.frames], SeenAt(cfg, link, p);
    var status := ReadStatus(f.statusBits);
    var velocity := VelocityFeedback(status, f.hallSpeed);
    var handled := Handled(cfg, link, s, status, velocity);
    PointFollows(cfg, link, p);
    HandledResets(cfg, link, s, status, velocity);
    FollowsEndings(cfg, p.MonitorHistory(cfg, link), s, handled);
    WatchLatchesExactly(cfg, link, handled, status, velocity, p.nowMs);
    H.FaultExactlyWhenOverdue(h, velocity == MeasuredMotion, p.nowMs, cfg.hallTimeouts);
  }
}
