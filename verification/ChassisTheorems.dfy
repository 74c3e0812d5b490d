/**
  * Safety of whole runs, read off the history: what is on the wire, in which order, and
  * what was received before it. `run` ranges over every sequence of callbacks, clocks and
  * link answers.
  */
module ChassisTheorems {
  import opened Basics
  import opened SerialProtocol
  import FeedbackDecoder
  import opened VehicleState
  import opened ChassisJournal
  import opened ChassisMachine
  import opened ChassisSafety
  import opened ChassisWire

  // ----- losing authorization stops the chassis

  lemma {:induction false} EveryMotionStopped(j: Journal, i: nat) returns (k: nat)
    requires !Digest(j).unstopped && i < |j| && j[i].MotionSent?
    ensures i < k < |j| && (j[k].StopSent? || j[k].Closed?)
  {
    var n := |j| - 1;
    NoteFrames(Digest(j[..n]), j[n]);
    if j[n].StopSent? || j[n].Closed? {
      k := n;
    } else {
      k := EveryMotionStopped(j[..n], i);
    }
  }

  /**
    * In every reachable state without authorization, each enabled frame ever written was
    * followed by a software-stop frame on the wire or by the port closing.
    */
  lemma LosingAuthorizationStops(cfg: Config, link: Link, run: seq<Event>, i: nat) returns (k: nat)
    requires var s := Run(cfg, link, run); !s.autonomous && i < |s.journal| && s.journal[i].MotionSent?
    ensures var j := Run(cfg, link, run).journal; i < k < |j| && (j[k].Closed? || IsStopFrame(WireFrame(j[k])))
  {
    hide EncodeCommand;
    RunsAreSafe(cfg, link, run);
    k := EveryMotionStopped(Run(cfg, link, run).journal, i);
    EntriesOnWire(Run(cfg, link, run).journal[k]);
  }

  /** On the wire of every run: each frame is a stop, a clear-fault request or an enabled motion frame, as its entry says. */
  lemma FramesOnWire(cfg: Config, link: Link, run: seq<Event>, k: nat)
    requires k < |Run(cfg, link, run).journal|
    ensures var e := Run(cfg, link, run).journal[k];
            match e
            case StopSent => IsStopFrame(WireFrame(e))
            case ClearSent => IsClearFrame(WireFrame(e))
            case MotionSent(command, _, _) => IsMotionFrame(WireFrame(e), command.speed, command.steering)
            case _ => WireFrame(e).None?
  {
    hide Run, WireFrame, Digest, Safe;
    RunsAreSafe(cfg, link, run);
    var j := Run(cfg, link, run).journal;
    SafeAt(cfg, j, k);
    EntriesOnWire(j[k]);
    if j[k].MotionSent? { MotionOnWire(cfg, Digest(j[..k]), j[k]); }
  }

  /** The flags agree: authorized means open, not latched and no stop pending; unstopped motion means authorized. */
  lemma FlagsAgree(cfg: Config, link: Link, run: seq<Event>)
    ensures var s := Run(cfg, link, run);
            && (s.autonomous ==> s.open && !s.latched && !s.stopSent)
            && (s.transmitted ==> s.autonomous)
            && (s.autonomous && s.status.faultLatched ==> s.clearPending)
            && (s.autonomous ==> !s.status.rcInputFault)
  {
    RunsAreSafe(cfg, link, run);
  }

  // ----- emergencies and latches

  /** The enabled frame at `k`, with the acceptance it stands on and the status that was clear then. */
  lemma MotionStandsOn(cfg: Config, j: Journal, k: nat) returns (a: nat, m: nat)
    requires Safe(cfg, j) && k < |j| && j[k].MotionSent?
    ensures m < a < k && j[a].Accepted? && j[m].EmergencySeen? && !j[m].active
    ensures forall x :: a < x < k ==> !Revokes(j[x])
    ensures forall x :: m < x < a ==> !j[x].EmergencySeen?
    ensures 0 <= j[a].atMs - j[m].atMs <= cfg.emergencyTimeoutMs
  {
    SafeAt(cfg, j, k);
    a := AuthorisedSince(j[..k]);
    SafeAt(cfg, j, a);
    m := LatestEmergency(j[..a]);
  }

  /**
    * After an active emergency message no enabled frame is written until a later clear
    * message and, after that, an accepted AUTONOMOUS request.
    */
  lemma EmergencyDiscipline(cfg: Config, link: Link, run: seq<Event>, i: nat, k: nat) returns (m: nat, a: nat)
    requires var j := Run(cfg, link, run).journal;
             i < k < |j| && j[i].EmergencySeen? && j[i].active && j[k].MotionSent?
    ensures var j := Run(cfg, link, run).journal;
            i < m < a < k && j[m].EmergencySeen? && !j[m].active && j[a].Accepted?
  {
    RunsAreSafe(cfg, link, run);
    a, m := MotionStandsOn(cfg, Run(cfg, link, run).journal, k);
  }

  /** After a latched stop, a release or a close, none until a new acceptance. */
  lemma LatchDiscipline(cfg: Config, link: Link, run: seq<Event>, i: nat, k: nat) returns (a: nat)
    requires var j := Run(cfg, link, run).journal; i < k < |j| && Revokes(j[i]) && j[k].MotionSent?
    ensures var j := Run(cfg, link, run).journal; i < a < k && j[a].Accepted?
  {
    RunsAreSafe(cfg, link, run);
    var m;
    a, m := MotionStandsOn(cfg, Run(cfg, link, run).journal, k);
  }

  // ----- every enabled frame

  /**
    * An enabled frame is on the wire as its command says. The command is within the limits, in
    * the direction of the latest gear command, covered by a clear emergency status no older than
    * the timeout, and zero while the latest status word has the fault-latched bit; with the
    * live-fault bit there is none.
    */
  lemma EnabledFrames(cfg: Config, link: Link, run: seq<Event>, k: nat) returns (t: nat, m: nat, g: Option<nat>)
    requires k < |Run(cfg, link, run).journal| && Run(cfg, link, run).journal[k].MotionSent?
    ensures var j := Run(cfg, link, run).journal;
            var speed, steering := j[k].command.speed, j[k].command.steering;
            && IsMotionFrame(WireFrame(j[k]), speed, steering)
            && speed.Finite? && steering.Finite? && InBand(cfg.limits, speed.value, steering.value)
            && t < k && j[t].Telemetry? && (forall x :: t < x < k ==> !j[x].Telemetry?)
            && !Bit(j[t].status.word, 0x400)
            && (Bit(j[t].status.word, 0x1) ==> speed.value == 0.0 && steering.value == 0.0)
            && m < k && j[m].EmergencySeen? && !j[m].active && (forall x :: m < x < k ==> !j[x].EmergencySeen?)
            && 0 <= j[k].checkedMs - j[m].atMs <= cfg.emergencyTimeoutMs
            && (g.None? ==> speed.value == 0.0 && forall x :: 0 <= x < k ==> !j[x].GearSet?)
            && (g.Some? ==> g.value < k && j[g.value].GearSet? && (forall x :: g.value < x < k ==> !j[x].GearSet?)
                            && (speed.value > 0.0 ==> j[g.value].gear == Drive)
                            && (speed.value < 0.0 ==> j[g.value].gear == Reverse))
  {
    hide Run, Digest, Safe, EncodeCommand, WireFrame, Bit;
    RunsAreSafe(cfg, link, run);
    var j := Run(cfg, link, run).journal;
    SafeAt(cfg, j, k);
    MotionOnWire(cfg, Digest(j[..k]), j[k]);
    t := LatestTelemetry(j[..k]);
    SafeAt(cfg, j, t);
    m := LatestEmergency(j[..k]);
    g := LatestGear(j[..k]);
  }

  /** Zero or between the configured bounds, and the steering angle in range. */
  predicate InBand(limits: Limits, speed: real, steering: real) {
    && limits.minimumSpeed.Finite? && limits.maximumSpeed.Finite? && limits.maximumSteering.Finite?
    && (speed == 0.0 || limits.minimumSpeed.value <= Abs(speed) <= limits.maximumSpeed.value)
    && Abs(steering) <= limits.maximumSteering.value
  }

  /** The command a setpoint becomes: zero in a handshake, no speed against the gear. */
  function Forwarded(s: Chassis, setpoint: Setpoint): ChassisCommand {
    var drives := !s.clearPending && ((s.gear == Drive && setpoint.speed > 0.0) || (s.gear == Reverse && setpoint.speed < 0.0));
    ChassisCommand(Finite(if drives then setpoint.speed else 0.0), Finite(if s.clearPending then 0.0 else setpoint.steering),
                   true, false, false)
  }

  /** The conditions under which a Control message is put on the wire. */
  predicate Offers(cfg: Config, s: Chassis, m: ControlInput) {
    && !cfg.telemetryOnly && s.open && s.autonomous
    && s.emergency.received && !s.emergency.active && 0 <= m.checkMs - s.emergency.lastMs <= cfg.emergencyTimeoutMs
    && -50_000_000 <= m.clockNs - m.stampNs <= 250_000_000 && s.lastStampNs <= m.stampNs
    && ControlToMotion(m.velocity, m.steering, cfg.limits).Some?
    && EncodeCommand(Forwarded(s, ControlToMotion(m.velocity, m.steering, cfg.limits).value)).Some?
  }

  /** The conditions under which it goes out. */
  predicate Forwards(cfg: Config, link: Link, s: Chassis, m: ControlInput) {
    Offers(cfg, s, m) && Taken(link(s.attempts)) >= 11
  }

  /** The bytes the port takes before the first error, hangup, timeout or write that takes nothing. */
  function Taken(steps: seq<WriteStep>): nat {
    if steps == [] || steps[0] == Failed || steps[0] == Wrote(0) then 0
    else (if steps[0].Wrote? then steps[0].n else 0) + Taken(steps[1..])
  }

  /** A write delivers exactly if these are as many as the frame has left. */
  lemma {:induction false} DeliversExactly(steps: seq<WriteStep>, offset: nat, size: nat)
    ensures Delivers(steps, offset, size) <==> offset + Taken(steps) >= size
    decreases |steps|
  {
    if offset < size && steps != [] {
      DeliversExactly(steps[1..], offset + if steps[0].Wrote? then steps[0].n else 0, size);
    }
  }

  /** The same conditions as the machine tests them. */
  predicate Passes(cfg: Config, link: Link, s: Chassis, m: ControlInput) {
    && !cfg.telemetryOnly && s.open && s.autonomous
    && s.emergency.FreshAndClear(m.checkMs, cfg.emergencyTimeoutMs) && StampIsFresh(s, m.stampNs, m.clockNs)
    && ControlToMotion(m.velocity, m.steering, cfg.limits).Some?
    && EncodeCommand(MotionCommand(s, ControlToMotion(m.velocity, m.steering, cfg.limits).value)).Some?
    && Delivers(link(s.attempts), 0, COMMAND_SIZE)
  }

  lemma PassesExactly(cfg: Config, link: Link, s: Chassis, m: ControlInput)
    ensures Passes(cfg, link, s, m) <==> Forwards(cfg, link, s, m)
    ensures ControlToMotion(m.velocity, m.steering, cfg.limits).Some? ==>
              var setpoint := ControlToMotion(m.velocity, m.steering, cfg.limits).value;
              MotionCommand(s, setpoint) == Forwarded(s, setpoint)
  {
    hide ControlToMotion, EncodeCommand, Delivers;
    DeliversExactly(link(s.attempts), 0, COMMAND_SIZE);
  }

  /** `after` extends `before` without an enabled frame. */
  predicate NoMotionAdded(before: Journal, after: Journal) {
    before <= after && forall k :: |before| <= k < |after| ==> !after[k].MotionSent?
  }

  lemma LatchAddsNoMotion(cfg: Config, link: Link, s: Chassis)
    ensures NoMotionAdded(s.journal, Latch(cfg, link, s).journal)
  {
    hide WriteFrame;
    var latched := MarkLatched(s);
    assert NoMotionAdded(s.journal, latched.journal);
    WriteAddsNoMotion(cfg, link, latched, StopSent);
  }

  lemma WriteAddsNoMotion(cfg: Config, link: Link, s: Chassis, sent: Entry)
    requires !sent.MotionSent?
    ensures NoMotionAdded(s.journal, WriteFrame(cfg, link, s, sent).0.journal)
  {
    hide Delivers, CloseSerial;
    CloseAddsNoMotion(Attempt(s));
  }

  lemma CloseAddsNoMotion(s: Chassis)
    ensures NoMotionAdded(s.journal, CloseSerial(s).journal)
  {
  }

  /**
    * A Control message puts an enabled frame on the wire exactly under these conditions, and
    * then the one frame the command limits, the gear and an open handshake make of it.
    */
  lemma ControlForwardsExactly(cfg: Config, link: Link, s: Chassis, m: ControlInput)
    ensures var t := Step(cfg, link, s, Control(m));
            if Forwards(cfg, link, s, m) then
              var command := Forwarded(s, ControlToMotion(m.velocity, m.steering, cfg.limits).value);
              t.journal == s.journal + [MotionSent(command, m.stampNs, m.checkMs)] && t.transmitted && t.autonomous
            else NoMotionAdded(s.journal, t.journal)
  {
    hide Latch, Delivers, EncodeCommand, ControlToMotion, StampIsFresh, MotionCommand, Forwarded, Forwards, NoteCommand;
    PassesExactly(cfg, link, s, m);
    LatchAddsNoMotion(cfg, link, s);
  }

  lemma {:induction false} StampsBelow(cfg: Config, j: Journal, i: nat)
    requires Safe(cfg, j) && i < |j| && j[i].MotionSent?
    ensures j[i].stampNs <= Digest(j).newestStampNs
  {
    var n := |j| - 1;
    NoteFrames(Digest(j[..n]), j[n]);
    if i < n {
      StampsBelow(cfg, j[..n], i);
    }
  }

  /** Control stamps never go back from one enabled frame to the next, across reconnects. */
  lemma StampsNeverGoBack(cfg: Config, link: Link, run: seq<Event>, i: nat, k: nat)
    requires var j := Run(cfg, link, run).journal; i < k < |j| && j[i].MotionSent? && j[k].MotionSent?
    ensures var j := Run(cfg, link, run).journal; j[i].stampNs <= j[k].stampNs
  {
    RunsAreSafe(cfg, link, run);
    var j := Run(cfg, link, run).journal;
    SafeAt(cfg, j, k);
    StampsBelow(cfg, j[..k], i);
  }

  // ----- the fault-clear handshake

  /** Entry `b` opens a handshake: accepted while telemetry shows a latched fault and none is open. */
  predicate Begins(j: Journal, b: nat) {
    b < |j| && j[b].Accepted? && Digest(j[..b]).status.faultLatched && !Digest(j[..b]).handshake
  }

  lemma HandshakeEffects(d: Summary, e: Entry)
    ensures Note(d, e).handshake ==> d.handshake || (e.Accepted? && d.status.faultLatched)
    ensures Note(d, e).handshake && d.handshake && !Note(d, e).handshakeClear ==> !d.handshakeClear && !e.ClearSent?
    ensures Note(d, e).handshake && d.handshake && Note(d, e).handshakeZero ==> d.handshakeZero || ZeroMotion(e)
    ensures Note(d, e).handshake && !d.handshake ==> !Note(d, e).handshakeZero && !Note(d, e).handshakeClear
  {
  }

  /** The handshake that opened at entry `b` is still open at the end. */
  predicate OpenFrom(j: Journal, b: nat) {
    Begins(j, b) && forall x :: b < x <= |j| ==> Digest(j[..x]).handshake
  }

  /** The open handshake's beginning, and what was written in it. */
  lemma {:induction false} OpenHandshake(j: Journal) returns (b: nat)
    requires Digest(j).handshake
    ensures OpenFrom(j, b)
    ensures !Digest(j).handshakeClear ==> forall k :: b < k < |j| ==> !j[k].ClearSent?
    ensures Digest(j).handshakeZero ==> exists z :: b < z < |j| && ZeroMotion(j[z])
  {
    hide Note;
    var n := |j| - 1;
    var p := j[..n];
    HandshakeEffects(Digest(p), j[n]);
    assert j[..|j|] == j;
    if Digest(p).handshake {
      b := OpenHandshake(p);
      assert forall x :: 0 <= x <= n ==> j[..x] == p[..x];
      if Digest(p).handshakeZero {
        var z :| b < z < |p| && ZeroMotion(p[z]);
        assert ZeroMotion(j[z]);
      }
      if ZeroMotion(j[n]) { assert b < n < |j|; }
    } else {
      b := n;
    }
  }

  /**
    * Each clear-fault frame is written inside a handshake that has been open without a break
    * since its beginning, after an enabled zero frame of it, and as its first clear-fault frame.
    */
  lemma ClearFaultFrames(cfg: Config, link: Link, run: seq<Event>, k: nat) returns (b: nat, z: nat)
    requires k < |Run(cfg, link, run).journal| && Run(cfg, link, run).journal[k].ClearSent?
    ensures var j := Run(cfg, link, run).journal;
            && b < z < k && OpenFrom(j[..k], b) && ZeroMotion(j[z])
            && forall x :: b < x < k ==> !j[x].ClearSent? && Unbroken(j[x])
  {
    hide Run, Note, Safe, ConfirmsClear, Revokes;
    RunsAreSafe(cfg, link, run);
    var j := Run(cfg, link, run).journal;
    SafeAt(cfg, j, k);
    b := OpenHandshake(j[..k]);
    z :| b < z < k && ZeroMotion(j[..k][z]);
    forall x | b < x < k ensures Unbroken(j[x]) { StaysOpen(cfg, j[..k], b, x); }
  }

  /** The entry does not end a handshake. */
  predicate Unbroken(e: Entry) {
    !Revokes(e) && !(e.Telemetry? && ConfirmsClear(e.status))
  }

  lemma StaysOpen(cfg: Config, j: Journal, b: nat, x: nat)
    requires OpenFrom(j, b) && b < x < |j|
    ensures Unbroken(j[x])
  {
    hide Note, Safe;
    assert j[..x + 1] == j[..x] + [j[x]];
    Extend(cfg, j[..x], j[x]);
    EndsHandshake(Digest(j[..x]), j[x]);
  }

  lemma EndsHandshake(d: Summary, e: Entry)
    ensures Note(d, e).handshake ==> Unbroken(e)
  {
  }

  /** Between two clear-fault frames a new handshake begins. */
  lemma OneClearPerHandshake(cfg: Config, link: Link, run: seq<Event>, i: nat, k: nat) returns (b: nat)
    requires var j := Run(cfg, link, run).journal; i < k < |j| && j[i].ClearSent? && j[k].ClearSent?
    ensures i < b < k && Begins(Run(cfg, link, run).journal, b)
  {
    var z;
    b, z := ClearFaultFrames(cfg, link, run, k);
    assert Run(cfg, link, run).journal[..k][..b] == Run(cfg, link, run).journal[..b];
  }

  // ----- the timer, and telemetry-only nodes

  /** Feedback neither grants an authorization nor touches the emergency status. */
  predicate OnlyRevokes(s: Chassis, t: Chassis) {
    t.emergency == s.emergency && (t.autonomous ==> s.autonomous)
  }

  lemma FeedbackOnlyRevokes(cfg: Config, link: Link, s: Chassis, f: ChassisFeedback, nowMs: int)
    ensures OnlyRevokes(s, OnFeedback(cfg, link, s, f, nowMs))
  {
    hide ReadStatus, VelocityFeedback, CheckFeedback, StepHandshake, WatchHall;
    var status := ReadStatus(f.statusBits);
    var velocity := VelocityFeedback(status, f.hallSpeed);
    var checked := CheckFeedback(cfg, link, s, status, velocity);
    var stepped := StepHandshake(cfg, link, checked, status);
    CheckOnlyRevokes(cfg, link, s, status, velocity);
    HandshakeOnlyRevokes(cfg, link, checked, status);
    WatchOnlyRevokes(cfg, link, stepped, status, velocity, nowMs);
  }

  lemma LatchOnlyRevokes(cfg: Config, link: Link, s: Chassis)
    ensures OnlyRevokes(s, Latch(cfg, link, s)) && !Latch(cfg, link, s).autonomous
  {
    hide Delivers;
  }

  lemma CheckOnlyRevokes(cfg: Config, link: Link, s: Chassis, status: Status, velocity: VelocityState)
    ensures OnlyRevokes(s, CheckFeedback(cfg, link, s, status, velocity))
  {
    hide Latch;
    var seen := SeeTelemetry(s, status);
    LatchOnlyRevokes(cfg, link, seen);
    LatchOnlyRevokes(cfg, link, NoteStatus(LatchIfDriving(cfg, link, seen, velocity == Inconsistent), status));
  }

  lemma HandshakeOnlyRevokes(cfg: Config, link: Link, s: Chassis, status: Status)
    ensures OnlyRevokes(s, StepHandshake(cfg, link, s, status))
  {
    hide Latch, TransmitClearFault;
    LatchOnlyRevokes(cfg, link, s);
    ClearOnlyRevokes(cfg, link, s);
  }

  lemma CloseOnlyRevokes(s: Chassis)
    ensures OnlyRevokes(s, CloseSerial(s))
  {
  }

  lemma ClearOnlyRevokes(cfg: Config, link: Link, s: Chassis)
    ensures OnlyRevokes(s, TransmitClearFault(cfg, link, s).0)
  {
    hide Delivers, CloseSerial, OnlyRevokes, Attempt, Log;
    CloseOnlyRevokes(Attempt(s));
    AttemptOnlyRevokes(s, ClearSent);
    assert OnlyRevokes(s, s) by { Unchanged(s); }
    Chain(s, Attempt(s), CloseSerial(Attempt(s)));
  }

  lemma AttemptOnlyRevokes(s: Chassis, sent: Entry)
    ensures OnlyRevokes(s, Attempt(s)) && OnlyRevokes(s, Log(Attempt(s), sent))
  {
    var tried := Attempt(s);
    assert tried.emergency == s.emergency && tried.autonomous == s.autonomous;
    var logged := Log(tried, sent);
    assert logged.emergency == s.emergency && logged.autonomous == s.autonomous;
  }

  lemma Unchanged(s: Chassis)
    ensures OnlyRevokes(s, s)
  {
  }

  lemma Chain(s: Chassis, t: Chassis, u: Chassis)
    requires OnlyRevokes(s, t) && OnlyRevokes(t, u)
    ensures OnlyRevokes(s, u)
  {
  }

  lemma WatchOnlyRevokes(cfg: Config, link: Link, s: Chassis, status: Status, velocity: VelocityState, nowMs: int)
    ensures OnlyRevokes(s, WatchHall(cfg, link, s, status, velocity, nowMs))
  {
    hide Latch;
    LatchOnlyRevokes(cfg, link, s.(hall := ObserveHall(s.hall, velocity == MeasuredMotion, nowMs, cfg.hallTimeouts).0));
  }

  lemma {:induction false} BatchOnlyRevokes(cfg: Config, link: Link, s: Chassis, frames: seq<ChassisFeedback>, nowMs: int)
    ensures OnlyRevokes(s, OnBatch(cfg, link, s, frames, nowMs))
  {
    hide OnFeedback;
    if frames != [] {
      var n := |frames| - 1;
      BatchOnlyRevokes(cfg, link, s, frames[..n], nowMs);
      FeedbackOnlyRevokes(cfg, link, OnBatch(cfg, link, s, frames[..n], nowMs), frames[n], nowMs);
    }
  }

  lemma {:induction false} ReadOnlyRevokes(cfg: Config, link: Link, s: Chassis, answers: seq<ReadStep>)
    ensures OnlyRevokes(s, ReadSerial(cfg, link, s, answers))
    decreases |answers|
  {
    hide OnData, CloseSerial;
    if answers != [] && s.open {
      match answers[0]
      case Data(bytes, nowMs) =>
        DataOnlyRevokes(cfg, link, s, bytes, nowMs);
        ReadOnlyRevokes(cfg, link, OnData(cfg, link, s, bytes, nowMs), answers[1..]);
      case ReadInterrupted => ReadOnlyRevokes(cfg, link, s, answers[1..]);
      case ReadFailed => CloseOnlyRevokes(s);
    }
  }

  lemma DataOnlyRevokes(cfg: Config, link: Link, s: Chassis, bytes: seq<Byte>, nowMs: int)
    ensures OnlyRevokes(s, OnData(cfg, link, s, bytes, nowMs))
  {
    hide OnBatch, FeedbackDecoder.Scan;
    BatchOnlyRevokes(cfg, link, Absorb(s, bytes), FeedbackDecoder.Scan(s.buffer + bytes).frames, nowMs);
  }

  /**
    * Whatever a timer tick polls and reads, it leaves the node authorized only if it was, and
    * the emergency status is fresh and clear at that tick.
    */
  lemma TimerDropsStaleAuthorization(cfg: Config, link: Link, s: Chassis, opens: bool, nowMs: int, poll: Poll)
    ensures var t := OnTimer(cfg, link, s, opens, nowMs, poll);
            && t.emergency == s.emergency
            && (t.autonomous ==> s.autonomous && s.emergency.FreshAndClear(nowMs, cfg.emergencyTimeoutMs))
  {
    hide Latch, ReadSerial, OpenSerial, CloseSerial;
    var polled := OpenSerial(cfg, s, opens);
    OpenOnlyRevokes(cfg, s, opens);
    LatchOnlyRevokes(cfg, link, polled);
    var guarded :=
      if polled.autonomous && !polled.emergency.FreshAndClear(nowMs, cfg.emergencyTimeoutMs)
      then Latch(cfg, link, polled) else polled;
    CloseOnlyRevokes(guarded);
    if poll.Readable? {
      ReadOnlyRevokes(cfg, link, guarded, poll.answers);
    }
  }

  lemma OpenOnlyRevokes(cfg: Config, s: Chassis, opens: bool)
    ensures OnlyRevokes(s, OpenSerial(cfg, s, opens))
  {
  }

  // ----- feedback and connections

  /** The first-feedback flag is exactly: some telemetry was not followed by a close. */
  lemma FeedbackFlagExactly(cfg: Config, link: Link, run: seq<Event>)
    ensures var s := Run(cfg, link, run); s.hasFeedback <==> exists t: nat :: HeardSince(s.journal, t)
  {
    RunsAreSafe(cfg, link, run);
    HeardExactly(Run(cfg, link, run).journal);
  }

  /**
    * Every acceptance is on a connection, and telemetry of that connection precedes it unless
    * telemetry worked off between the last close and the opening already set the flag.
    */
  lemma AcceptanceHeard(cfg: Config, link: Link, run: seq<Event>, a: nat) returns (o: nat, t: nat)
    requires a < |Run(cfg, link, run).journal| && Run(cfg, link, run).journal[a].Accepted?
    ensures var j := Run(cfg, link, run).journal;
            && OpenSince(j[..a], o) && HeardSince(j[..a], t)
            && (o < t || HeardSince(j[..o], t))
            && ((forall x: nat :: !HeardSince(j[..o], x)) ==> o < t)
  {
    RunsAreSafe(cfg, link, run);
    var j := Run(cfg, link, run).journal;
    SafeAt(cfg, j, a);
    o := OpeningEntry(j[..a]);
    t := HeardEntry(j[..a]);
    assert j[..a][..o] == j[..o];
  }

  /**
    * A connection just opened accepts an AUTONOMOUS request, before any telemetry of its own,
    * exactly if telemetry was worked off after the last close (and nothing else forbids it).
    */
  lemma FreshConnectionAcceptsExactly(cfg: Config, link: Link, run: seq<Event>, nowMs: int)
    requires !cfg.telemetryOnly && !Run(cfg, link, run).open
    ensures var s := Run(cfg, link, run);
            var t := OpenSerial(cfg, s, true);
            && t.open
            && (AcceptsAutonomous(cfg, t, nowMs) <==>
                  && (exists x: nat :: HeardSince(s.journal, x))
                  && s.emergency.FreshAndClear(nowMs, cfg.emergencyTimeoutMs) && !s.status.rcInputFault)
  {
    FeedbackFlagExactly(cfg, link, run);
    hide Run;
  }

  lemma TelemetryOnlyIsSilent(cfg: Config, link: Link, run: seq<Event>, k: nat)
    requires cfg.telemetryOnly && k < |Run(cfg, link, run).journal|
    ensures SentCommand(Run(cfg, link, run).journal[k]).None?
  {
    RunsAreSafe(cfg, link, run);
    SafeAt(cfg, Run(cfg, link, run).journal, k);
  }
}
