/**
  * How the chassis node answers each stimulus: which entries a callback adds to the history,
  * told from the received message, the status word of a frame and the answers of the link.
  */
module ChassisResponses {
  import opened SerialProtocol
  import FeedbackDecoder
  import opened VehicleState
  import opened ChassisJournal
  import opened ChassisMachine
  import opened ChassisSafety
  import opened ChassisTheorems
  import Hall = ChassisHall
  import H = HallHistory

  // ----- stopping

  /** What an attempt to stop adds: the stop frame, or the close that follows a failed write. */
  function StopAttempt(cfg: Config, link: Link, s: Chassis): Journal {
    if cfg.telemetryOnly || !s.open then []
    else if Taken(link(s.attempts)) >= 11 then [StopSent] else [Closed]
  }

  /** What a latch adds: a stop attempt unless a stop stands. */
  function LatchEntries(cfg: Config, link: Link, s: Chassis): Journal {
    [StopLatched] + if s.stopSent then [] else StopAttempt(cfg, link, s)
  }

  lemma WriteAdds(cfg: Config, link: Link, s: Chassis, sent: Entry)
    ensures var (t, ok) := WriteFrame(cfg, link, s, sent);
            && ok == (!cfg.telemetryOnly && s.open && Taken(link(s.attempts)) >= 11)
            && t.journal == s.journal + (if cfg.telemetryOnly || !s.open then [] else if ok then [sent] else [Closed])
            && t.latched == s.latched && (t.autonomous ==> s.autonomous)
            && (!cfg.telemetryOnly && s.open ==> t.open == ok && (!ok ==> !t.autonomous))
            && (ok ==> t.autonomous == s.autonomous) && (cfg.telemetryOnly || !s.open ==> t == s)
  {
    hide Delivers, CloseSerial, Log, Attempt, Taken;
    DeliversExactly(link(s.attempts), 0, COMMAND_SIZE);
    AttemptAdds(s);
    LogAdds(Attempt(s), sent);
    CloseAdds(Attempt(s));
    assert s.journal + [] == s.journal;
  }

  lemma AttemptAdds(s: Chassis)
    ensures SameBut(s, Attempt(s), [])
  {
    assert s.journal + [] == s.journal;
  }

  lemma LogAdds(s: Chassis, e: Entry)
    ensures SameBut(s, Log(s, e), [e])
  {
  }

  /** `t` is like `s`, with these entries added, in what the answers depend on. */
  predicate SameBut(s: Chassis, t: Chassis, added: Journal) {
    t.journal == s.journal + added && t.open == s.open && t.autonomous == s.autonomous && t.latched == s.latched
  }

  lemma CloseAdds(s: Chassis)
    ensures var t := CloseSerial(s);
            && !t.open && (s.open ==> !t.autonomous) && t.latched == s.latched
            && t.journal == s.journal + (if s.open then [Closed] else []) && (!s.open ==> t == s)
  {
    assert s.journal + [] == s.journal;
    var dropped := DropConnection(DropPort(s));
    assert dropped.journal == s.journal && !dropped.open && !dropped.autonomous && dropped.latched == s.latched;
    hide DropConnection, DropPort;
    var reset := ResetHall(ResetHandshake(dropped));
    assert SameBut(dropped, reset, []) by { assert reset.journal + [] == reset.journal; }
    hide ResetHall, ResetHandshake;
    assert SameBut(reset, Log(DiscardBuffer(reset), Closed), [Closed]);
  }

  lemma StopAdds(cfg: Config, link: Link, s: Chassis)
    ensures var (t, ok) := SendStop(cfg, link, s);
            && t.journal == s.journal + StopAttempt(cfg, link, s) && t.stopSent == ok
            && ok == (!cfg.telemetryOnly && s.open && Taken(link(s.attempts)) >= 11)
            && (s.open && !cfg.telemetryOnly ==> t.open == ok)
            && (!s.autonomous ==> !t.autonomous) && (s.latched == t.latched)
  {
    hide WriteFrame, Taken;
    WriteAdds(cfg, link, s, StopSent);
  }

  /**
    * A latch revokes, and leaves an open port with a stop frame on the wire that no acceptance
    * followed, or closed.
    */
  lemma LatchAdds(cfg: Config, link: Link, s: Chassis)
    ensures var t := Latch(cfg, link, s);
            && t.journal == s.journal + LatchEntries(cfg, link, s)
            && !t.autonomous && t.latched && (t.open && !cfg.telemetryOnly ==> t.stopSent)
  {
    hide SendStop, Taken;
    var latched := MarkLatched(s);
    StopAdds(cfg, link, latched);
    assert latched.journal == s.journal + [StopLatched];
    assert (s.journal + [StopLatched]) + StopAttempt(cfg, link, s) == s.journal + ([StopLatched] + StopAttempt(cfg, link, s));
  }

  /** An emergency message: active, it stops the chassis whether or not the node is authorized; clear, it is only noted. */
  lemma EmergencyExactly(cfg: Config, link: Link, run: seq<Event>, active: bool, nowMs: int)
    requires !cfg.telemetryOnly
    ensures var s := Run(cfg, link, run);
            var t := Step(cfg, link, s, EmergencyStatus(active, nowMs));
            && t.journal == s.journal + [EmergencySeen(active, nowMs)] + (if active then LatchEntries(cfg, link, s) else [])
            && (active ==> !t.autonomous && !t.transmitted && (t.open ==> t.stopSent))
            && (!active ==> t.autonomous == s.autonomous)
  {
    hide Run, Latch, Invariant, Taken;
    var s := Run(cfg, link, run);
    RunsAreSafe(cfg, link, run);
    EmergencyKeeps(cfg, link, s, active, nowMs);
    var seen := SeeEmergency(s, active, nowMs);
    LatchAdds(cfg, link, seen);
    assert LatchEntries(cfg, link, seen) == LatchEntries(cfg, link, s);
    NotDriving(cfg, OnEmergency(cfg, link, s, active, nowMs));
    assert seen.journal + [] == seen.journal;
  }

  lemma NotDriving(cfg: Config, s: Chassis)
    requires Invariant(cfg, s)
    ensures s.transmitted ==> s.autonomous && s.open && !s.stopSent
  {
  }

  // ----- Control messages

  /**
    * What a Control message does: without authorization nothing; under an emergency status that
    * is not fresh and clear it stops; where it is put on the wire it goes out or the port closes;
    * otherwise nothing.
    */
  lemma ControlExactly(cfg: Config, link: Link, s: Chassis, m: ControlInput)
    requires !cfg.telemetryOnly
    ensures var t := Step(cfg, link, s, Control(m));
            var clear := s.emergency.received && !s.emergency.active
                         && 0 <= m.checkMs - s.emergency.lastMs <= cfg.emergencyTimeoutMs;
            if s.autonomous && !clear then
              && t.journal == s.journal + LatchEntries(cfg, link, s)
              && !t.autonomous && t.latched && (t.open ==> t.stopSent)
            else if Offers(cfg, s, m) then
              if Taken(link(s.attempts)) >= 11 then
                var command := Forwarded(s, ControlToMotion(m.velocity, m.steering, cfg.limits).value);
                t.journal == s.journal + [MotionSent(command, m.stampNs, m.checkMs)] && t.autonomous
              else t.journal == s.journal + [Closed] && !t.autonomous && !t.open
            else t == s
  {
    hide Latch, WriteFrame, EncodeCommand, ControlToMotion, StampIsFresh, MotionCommand, Forwarded, NoteMotion, Taken, Delivers,
         LatchEntries;
    PassesExactly(cfg, link, s, m);
    LatchAdds(cfg, link, s);
    OffersExactly(cfg, s, m);
    var setpoint := ControlToMotion(m.velocity, m.steering, cfg.limits);
    if Offers(cfg, s, m) {
      var sent := MotionSent(MotionCommand(s, setpoint.value), m.stampNs, m.checkMs);
      WriteAdds(cfg, link, s, sent);
      MotionNoted(WriteFrame(cfg, link, s, sent).0, MotionCommand(s, setpoint.value).speed.value, m);
    }
  }

  lemma MotionNoted(s: Chassis, speed: real, m: ControlInput)
    ensures var t := NoteMotion(s, speed, m); t.journal == s.journal && t.autonomous == s.autonomous
  {
    hide NoteCommand;
  }

  lemma OffersExactly(cfg: Config, s: Chassis, m: ControlInput)
    ensures var setpoint := ControlToMotion(m.velocity, m.steering, cfg.limits);
            Offers(cfg, s, m) <==>
              && !cfg.telemetryOnly && s.open && s.autonomous
              && s.emergency.FreshAndClear(m.checkMs, cfg.emergencyTimeoutMs) && StampIsFresh(s, m.stampNs, m.clockNs)
              && setpoint.Some? && EncodeCommand(MotionCommand(s, setpoint.value)).Some?
    ensures ControlToMotion(m.velocity, m.steering, cfg.limits).Some? ==>
              var setpoint := ControlToMotion(m.velocity, m.steering, cfg.limits).value;
              MotionCommand(s, setpoint) == Forwarded(s, setpoint) && MotionCommand(s, setpoint).speed.Finite?
  {
    hide ControlToMotion, EncodeCommand;
  }

  // ----- mode requests

  /** What a release adds: a stop attempt if the node was authorized and no stop stands. */
  function ReleaseEntries(cfg: Config, link: Link, s: Chassis): Journal {
    [Released] + if s.autonomous && !s.stopSent then StopAttempt(cfg, link, s) else []
  }

  /**
    * AUTONOMOUS is granted exactly under these conditions and otherwise changes nothing; MANUAL
    * and NO_COMMAND revoke at once and report whether the stop they needed went out; anything
    * else is refused.
    */
  lemma ModeRequestExactly(cfg: Config, link: Link, run: seq<Event>, mode: ModeRequest, nowMs: int)
    requires !cfg.telemetryOnly
    ensures var s := Run(cfg, link, run);
            var (t, success) := OnModeRequest(cfg, link, s, mode, nowMs);
            match mode
            case RequestAutonomous =>
              && (success <==>
                    && s.open && s.emergency.received && !s.emergency.active
                    && 0 <= nowMs - s.emergency.lastMs <= cfg.emergencyTimeoutMs
                    && s.hasFeedback && !Bit(s.status.word, 0x400))
              && (success ==> t.autonomous && t.journal == s.journal + [Accepted(nowMs)])
              && (!success ==> t == s)
            case RequestOther => !success && t == s
            case _ =>
              && t.journal == s.journal + ReleaseEntries(cfg, link, s) && !t.autonomous && !t.transmitted
              && (success <==> !(s.autonomous && !s.stopSent) || Taken(link(s.attempts)) >= 11)
  {
    hide Run, Grant, Release, Invariant, ReadStatus, Bit, Taken;
    var s := Run(cfg, link, run);
    RunsAreSafe(cfg, link, run);
    StatusRead(cfg, s);
    LiveBit(s.status.word);
    GrantAdds(s, nowMs);
    ReleaseAdds(cfg, link, s);
  }

  lemma GrantAdds(s: Chassis, nowMs: int)
    ensures Grant(s, nowMs).autonomous && Grant(s, nowMs).journal == s.journal + [Accepted(nowMs)]
  {
  }

  lemma ReleaseAdds(cfg: Config, link: Link, s: Chassis)
    requires Invariant(cfg, s) && !cfg.telemetryOnly
    ensures var (t, success) := Release(cfg, link, s);
            && t.journal == s.journal + ReleaseEntries(cfg, link, s) && !t.autonomous && !t.transmitted
            && (success <==> !(s.autonomous && !s.stopSent) || Taken(link(s.attempts)) >= 11)
  {
    hide SendStop, Taken, Digest, Safe;
    var released := MarkReleased(s);
    StopAdds(cfg, link, released);
    ReleaseKeeps(cfg, link, s);
    NotDriving(cfg, s);
    NotDriving(cfg, Release(cfg, link, s).0);
    assert released.journal == s.journal + [Released];
    assert (s.journal + [Released]) + StopAttempt(cfg, link, s) == s.journal + ([Released] + StopAttempt(cfg, link, s));
    assert [Released] + [] == [Released];
  }

  lemma LiveBit(word: int)
    ensures ReadStatus(word).rcInputFault == Bit(word, 0x400)
  {
  }

  /** The live-fault state the node keeps is the bit of the latest word. */
  lemma StatusRead(cfg: Config, s: Chassis)
    requires Invariant(cfg, s)
    ensures s.status == ReadStatus(s.status.word)
  {
    hide ReadStatus;
    ReadIsRead(cfg, s.journal);
    NoStatusRead();
  }

  lemma NoStatusRead()
    ensures NO_STATUS == ReadStatus(0)
  {
  }

  lemma {:induction false} ReadIsRead(cfg: Config, j: Journal)
    requires Safe(cfg, j)
    ensures Digest(j).status == NO_STATUS || Digest(j).status == ReadStatus(Digest(j).status.word)
  {
    hide ReadStatus;
    if j != [] {
      NoteTelemetry(Digest(j[..|j| - 1]), j[|j| - 1]);
      hide Note;
      ReadIsRead(cfg, j[..|j| - 1]);
    }
  }

  // ----- shutdown and the timer

  /** The last words of the node: a stop attempt if an enabled frame is outstanding, and the close. */
  lemma ShutdownExactly(cfg: Config, link: Link, run: seq<Event>)
    ensures var s := Run(cfg, link, run);
            var t := Step(cfg, link, s, Shutdown);
            && !t.open && !t.autonomous
            && t.journal == s.journal
                 + (if !s.open then []
                    else if s.transmitted && Taken(link(s.attempts)) >= 11 then [StopSent, Closed] else [Closed])
  {
    hide Run, WriteFrame, CloseSerial, Taken, Invariant;
    var s := Run(cfg, link, run);
    RunsAreSafe(cfg, link, run);
    Writable(cfg, s);
    WriteAdds(cfg, link, s, StopSent);
    var t := TransmitSoftwareStop(cfg, link, s).0;
    CloseAdds(s);
    CloseAdds(t);
    assert (s.journal + [StopSent]) + [Closed] == s.journal + [StopSent, Closed];
    assert s.journal + [] == s.journal;
  }

  lemma Writable(cfg: Config, s: Chassis)
    requires Invariant(cfg, s)
    ensures s.transmitted ==> !cfg.telemetryOnly && s.open
    ensures s.autonomous ==> s.open && !cfg.telemetryOnly && !s.stopSent
  {
  }

  /**
    * A tick reopens a closed port, then latches an authorized node whose emergency status is not
    * fresh and clear; a poll error or a hangup closes the port.
    */
  lemma TimerExactly(cfg: Config, link: Link, run: seq<Event>, opens: bool, nowMs: int, poll: Poll)
    requires !poll.Readable?
    ensures var s := Run(cfg, link, run);
            var t := Step(cfg, link, s, Timer(opens, nowMs, poll));
            var guards := s.autonomous && !(s.emergency.received && !s.emergency.active
                                            && 0 <= nowMs - s.emergency.lastMs <= cfg.emergencyTimeoutMs);
            && (poll != Quiet ==> !t.open)
            && (guards ==> s.journal + LatchEntries(cfg, link, s) <= t.journal)
            && (guards && poll == Quiet ==> t.journal == s.journal + LatchEntries(cfg, link, s))
            && (poll == Quiet && !guards ==>
                  if !s.open && opens && !(cfg.telemetryOnly && s.openAttempted)
                  then t.journal == s.journal + [Opened] && t.open else t.journal == s.journal && t.open == s.open)
  {
    hide Run, Latch, CloseSerial, OpenSerial, Taken, Invariant;
    var s := Run(cfg, link, run);
    RunsAreSafe(cfg, link, run);
    Writable(cfg, s);
    OpenAdds(cfg, s, opens);
    var polled := OpenSerial(cfg, s, opens);
    LatchAdds(cfg, link, polled);
    CloseAdds(polled);
    CloseAdds(Latch(cfg, link, polled));
  }

  lemma OpenAdds(cfg: Config, s: Chassis, opens: bool)
    ensures var t := OpenSerial(cfg, s, opens);
            && t.autonomous == s.autonomous && t.emergency == s.emergency && (s.open ==> t == s)
            && if !s.open && opens && !(cfg.telemetryOnly && s.openAttempted)
               then t.journal == s.journal + [Opened] && t.open else t.journal == s.journal && t.open == s.open
  {
  }

  // ----- feedback

  /** A Hall speed and a standstill confirmation that contradict each other, or the validity bit. */
  predicate Contradicts(word: int, hallSpeed: real) {
    (Bit(word, 0x40) <==> hallSpeed == 0.0) || (Bit(word, 0x40) && Bit(word, 0x1000))
  }

  /** The word lets a clear-fault frame be sent: fault latched, automatic, and neither blocked nor a live fault. */
  predicate LetsClear(word: int) {
    Bit(word, 0x1) && Bit(word, 0x20) && !Bit(word, 0x2) && !Bit(word, 0x4) && !Bit(word, 0x8) && !Bit(word, 0x400)
  }

  /**
    * What a decoded frame adds before the Hall monitor sees it. An authorized node stops for
    * contradictory feedback and for the live-fault bit; in a handshake it asks once for the
    * faults to be cleared; outside one it stops for the fault-latched bit.
    */
  function FrameEntries(cfg: Config, link: Link, s: Chassis, f: ChassisFeedback): Journal {
    [Entry.Telemetry(ReadStatus(f.statusBits))]
    + if s.autonomous && (Contradicts(f.statusBits, f.hallSpeed) || Bit(f.statusBits, 0x400)) then LatchEntries(cfg, link, s)
      else if s.clearPending then
        if LetsClear(f.statusBits) && s.clearZeroSent && !s.clearSent
        then if Taken(link(s.attempts)) >= 11 then [ClearSent] else [Closed]
        else []
      else if s.autonomous && Bit(f.statusBits, 0x1) then LatchEntries(cfg, link, s)
      else []
  }

  /** The fields that a latch or a clear-fault request starts from. */
  predicate Alike(s: Chassis, t: Chassis) {
    && t.open == s.open && t.autonomous == s.autonomous && t.transmitted == s.transmitted && t.stopSent == s.stopSent
    && t.attempts == s.attempts && t.clearPending == s.clearPending && t.clearZeroSent == s.clearZeroSent
    && t.clearSent == s.clearSent
  }

  lemma SeenAlike(s: Chassis, status: Status)
    ensures Alike(s, SeeTelemetry(s, status)) && SeeTelemetry(s, status).journal == s.journal + [Entry.Telemetry(status)]
  {
  }

  lemma NotedAlike(s: Chassis, status: Status)
    ensures Alike(s, NoteStatus(s, status)) && NoteStatus(s, status).journal == s.journal
  {
  }

  lemma LatchEnds(cfg: Config, link: Link, s: Chassis)
    requires Core(cfg, s)
    ensures var t := Latch(cfg, link, s); !t.autonomous && !t.transmitted && !t.clearPending
  {
    hide Latch, Digest, Safe;
    LatchKeeps(cfg, link, s);
  }

  lemma CheckAdds(cfg: Config, link: Link, s: Chassis, status: Status, velocity: VelocityState)
    requires Invariant(cfg, s) && status == ReadStatus(status.word)
    ensures var t := CheckFeedback(cfg, link, s, status, velocity);
            if s.autonomous && (velocity == Inconsistent || status.rcInputFault) then
              && t.journal == s.journal + [Entry.Telemetry(status)] + LatchEntries(cfg, link, s)
              && !t.autonomous && !t.clearPending
            else t.journal == s.journal + [Entry.Telemetry(status)] && Alike(s, t)
  {
    hide Invariant, Core, Latch, SeeTelemetry, NoteStatus, ReadStatus, Taken;
    var seen := SeeTelemetry(s, status);
    TelemetryKeeps(cfg, s, status);
    SeenAlike(s, status);
    NotDriving(cfg, s);
    LatchAdds(cfg, link, seen);
    LatchEnds(cfg, link, seen);
    NotedAlike(Latch(cfg, link, seen), status);
    NotedAlike(seen, status);
    LatchAdds(cfg, link, NoteStatus(seen, status));
    NotedKeeps(cfg, seen, status);
    LatchEnds(cfg, link, NoteStatus(seen, status));
  }

  lemma ClearAdds(cfg: Config, link: Link, s: Chassis)
    requires s.open && !cfg.telemetryOnly
    ensures var (t, ok) := TransmitClearFault(cfg, link, s);
            NoteClear(t, ok).journal == s.journal + if Taken(link(s.attempts)) >= 11 then [ClearSent] else [Closed]
  {
    hide WriteFrame, Taken;
    WriteAdds(cfg, link, s, ClearSent);
  }

  lemma HandshakeAdds(cfg: Config, link: Link, s: Chassis, status: Status)
    requires s.clearPending ==> s.open && !cfg.telemetryOnly
    ensures StepHandshake(cfg, link, s, status).journal == s.journal
            + if status.rcInputFault then []
              else if s.clearPending then
                if status.FaultClearPermitted() && s.clearZeroSent && !s.clearSent
                then if Taken(link(s.attempts)) >= 11 then [ClearSent] else [Closed]
                else []
              else if status.faultLatched && s.autonomous then LatchEntries(cfg, link, s)
              else []
  {
    hide Latch, TransmitClearFault, NoteClear, Taken;
    assert s.journal + [] == s.journal;
    LatchAdds(cfg, link, s);
    if s.clearPending { ClearAdds(cfg, link, s); }
  }

  lemma WordBits(word: int, hallSpeed: real)
    ensures var status := ReadStatus(word);
            && status.word == word && status.rcInputFault == Bit(word, 0x400) && status.faultLatched == Bit(word, 0x1)
            && status.FaultClearPermitted() == LetsClear(word)
            && (VelocityFeedback(status, hallSpeed) == Inconsistent <==> Contradicts(word, hallSpeed))
            && (VelocityFeedback(status, hallSpeed) == MeasuredMotion <==>
                  Bit(word, 0x40) && !Bit(word, 0x1000) && hallSpeed != 0.0)
  {
    hide Bit;
  }

  lemma {:induction false} PointSafe(cfg: Config, link: Link, p: Hall.Point)
    requires p.frames <= |p.Chunk(cfg, link)|
    ensures Invariant(cfg, p.Node(cfg, link))
  {
    hide Invariant, Run, Latch, ReadSerial, OnBatch, OpenSerial, FeedbackDecoder.Scan, Absorb;
    var s := Run(cfg, link, p.run);
    RunsAreSafe(cfg, link, p.run);
    OpenKeeps(cfg, s, p.opens);
    GuardedSafe(cfg, link, s, p.opens, p.tickMs);
    ReadKeeps(cfg, link, Hall.Guarded(cfg, link, s, p.opens, p.tickMs), p.answers);
    AbsorbKeeps(cfg, p.Read(cfg, link), p.bytes);
    BatchKeeps(cfg, link, Absorb(p.Read(cfg, link), p.bytes), p.Chunk(cfg, link)[..p.frames], p.nowMs);
  }

  lemma GuardedSafe(cfg: Config, link: Link, s: Chassis, opens: bool, nowMs: int)
    requires Invariant(cfg, s)
    ensures Invariant(cfg, Hall.Guarded(cfg, link, s, opens, nowMs))
  {
    hide Invariant;
    TimerKeeps(cfg, link, s, opens, nowMs, Quiet);
  }

  lemma AbsorbKeeps(cfg: Config, s: Chassis, bytes: seq<Byte>)
    requires Invariant(cfg, s)
    ensures Invariant(cfg, Absorb(s, bytes))
  {
    hide FeedbackDecoder.Scan, Digest, Safe;
  }

  /**
    * At every decoded frame of every run: the history grows by exactly these entries before the
    * Hall monitor sees the frame, and then by a latch exactly if the monitor reports a fault.
    */
  lemma FeedbackExactly(cfg: Config, link: Link, p: Hall.Point)
    requires p.frames < |p.Chunk(cfg, link)|
    ensures var s, f := p.Node(cfg, link), p.Chunk(cfg, link)[p.frames];
            var status := ReadStatus(f.statusBits);
            var handled := Hall.Handled(cfg, link, s, status, VelocityFeedback(status, f.hallSpeed));
            var t := OnFeedback(cfg, link, s, f, p.nowMs);
            && handled.journal == s.journal + FrameEntries(cfg, link, s, f)
            && (t.journal == handled.journal
                || (t.journal == handled.journal + LatchEntries(cfg, link, handled) && !t.autonomous && t.latched))
  {
    hide Run, Invariant, ReadStatus, VelocityFeedback, Hall.Handled, CheckFeedback, StepHandshake, WatchHall, FrameEntries,
      LatchEntries, ReadSerial, OnBatch, FeedbackDecoder.Scan;
    var s, f := p.Node(cfg, link), p.Chunk(cfg, link)[p.frames];
    PointSafe(cfg, link, p);
    var status := ReadStatus(f.statusBits);
    var velocity := VelocityFeedback(status, f.hallSpeed);
    HandledAdds(cfg, link, s, f);
    WatchAdds(cfg, link, Hall.Handled(cfg, link, s, status, velocity), status, velocity, p.nowMs);
    WatchIsLast(cfg, link, s, f, p.nowMs);
  }

  /**
    * In every run a frame stops the node for its Hall reading exactly if the remote control, a
    * command timeout, a stop override and both fault bits are absent, the frame carries no valid
    * motion, and the history of the run says that one is overdue.
    */
  lemma HallStopsExactly(cfg: Config, link: Link, p: Hall.Point)
    requires p.frames < |p.Chunk(cfg, link)|
    ensures var s, f, h := p.Node(cfg, link), p.Chunk(cfg, link)[p.frames], Hall.SeenAt(cfg, link, p);
            var status, word := ReadStatus(f.statusBits), f.statusBits;
            var handled := Hall.Handled(cfg, link, s, status, VelocityFeedback(status, f.hallSpeed));
            OnFeedback(cfg, link, s, f, p.nowMs).journal == handled.journal + LatchEntries(cfg, link, handled)
            <==> && !handled.rcOverride && !Bit(word, 0x2) && !Bit(word, 0x8) && !Bit(word, 0x400) && !Bit(word, 0x1)
                 && !(Bit(word, 0x40) && !Bit(word, 0x1000) && f.hallSpeed != 0.0)
                 && H.Direction(h, |h|) != 0 && H.Overdue(h, |h|, p.nowMs, cfg.hallTimeouts)
  {
    hide Run, ReadStatus, VelocityFeedback, Hall.Handled, WatchHall, OnFeedback, FrameEntries, Taken, Bit,
      ReadSerial, OnBatch, FeedbackDecoder.Scan, H.Overdue, H.Direction, Hall.SeenAt;
    var s, f := p.Node(cfg, link), p.Chunk(cfg, link)[p.frames];
    var status := ReadStatus(f.statusBits);
    Hall.HallFaultsExactly(cfg, link, p);
    FeedbackExactly(cfg, link, p);
    WordBits(f.statusBits, f.hallSpeed);
    var handled := Hall.Handled(cfg, link, s, status, VelocityFeedback(status, f.hallSpeed));
    BlockedBits(handled, f.statusBits);
    LatchesAdded(cfg, link, handled);
  }

  lemma LatchesAdded(cfg: Config, link: Link, s: Chassis)
    ensures Hall.LatchesBetween(s.journal, s.journal + LatchEntries(cfg, link, s)) && !Hall.LatchesBetween(s.journal, s.journal)
    ensures s.journal + LatchEntries(cfg, link, s) != s.journal
  {
    var j := s.journal + LatchEntries(cfg, link, s);
    assert j[|s.journal|] == StopLatched && |j| > |s.journal|;
  }

  lemma BlockedBits(s: Chassis, word: int)
    ensures HallBlocked(s, ReadStatus(word)) <==>
            s.rcOverride || Bit(word, 0x2) || Bit(word, 0x8) || Bit(word, 0x400) || Bit(word, 0x1)
  {
    hide Bit;
  }

  lemma WatchIsLast(cfg: Config, link: Link, s: Chassis, f: ChassisFeedback, nowMs: int)
    ensures var status := ReadStatus(f.statusBits);
            var velocity := VelocityFeedback(status, f.hallSpeed);
            var handled := Hall.Handled(cfg, link, s, status, velocity);
            OnFeedback(cfg, link, s, f, nowMs) == WatchHall(cfg, link, handled, status, velocity, nowMs)
  {
    hide ReadStatus, VelocityFeedback, CheckFeedback, StepHandshake, WatchHall;
  }

  lemma WatchAdds(cfg: Config, link: Link, s: Chassis, status: Status, velocity: VelocityState, nowMs: int)
    ensures var t := WatchHall(cfg, link, s, status, velocity, nowMs);
            t.journal == s.journal || (t.journal == s.journal + LatchEntries(cfg, link, s) && !t.autonomous && t.latched)
  {
    hide Latch, LatchEntries, HallBlocked, ObserveHall;
    var hall := ObserveHall(s.hall, velocity == MeasuredMotion, nowMs, cfg.hallTimeouts).0;
    HallAside(cfg, link, s, HALL_IDLE);
    HallAside(cfg, link, s, hall);
    LatchAdds(cfg, link, s.(hall := hall));
  }

  lemma HallAside(cfg: Config, link: Link, s: Chassis, hall: HallState)
    ensures var t := s.(hall := hall); t.journal == s.journal && LatchEntries(cfg, link, t) == LatchEntries(cfg, link, s)
  {
  }

  lemma HandledAdds(cfg: Config, link: Link, s: Chassis, f: ChassisFeedback)
    requires Invariant(cfg, s)
    ensures var status := ReadStatus(f.statusBits);
            var handled := Hall.Handled(cfg, link, s, status, VelocityFeedback(status, f.hallSpeed));
            handled.journal == s.journal + FrameEntries(cfg, link, s, f)
  {
    hide Invariant, ReadStatus, VelocityFeedback, CheckFeedback, StepHandshake, Taken, Bit, Contradicts, LetsClear, LatchEntries;
    Writable(cfg, s);
    HandshakeOpen(cfg, s);
    WordBits(f.statusBits, f.hallSpeed);
    var status := ReadStatus(f.statusBits);
    var velocity := VelocityFeedback(status, f.hallSpeed);
    CheckAdds(cfg, link, s, status, velocity);
    var checked := CheckFeedback(cfg, link, s, status, velocity);
    HandshakeAdds(cfg, link, checked, status);
    SameEntries(cfg, link, s, checked);
    var seen := s.journal + [Entry.Telemetry(status)];
    assert seen + [] == seen && [Entry.Telemetry(status)] + [] == [Entry.Telemetry(status)];
    Regroup(s.journal, [Entry.Telemetry(status)], LatchEntries(cfg, link, s));
    Regroup(s.journal, [Entry.Telemetry(status)], [ClearSent]);
    Regroup(s.journal, [Entry.Telemetry(status)], [Closed]);
  }

  lemma Regroup(a: Journal, b: Journal, c: Journal)
    ensures (a + b) + c == a + (b + c) && ((a + b) + c) + [] == (a + b) + c
  {
  }

  lemma SameEntries(cfg: Config, link: Link, s: Chassis, t: Chassis)
    ensures Alike(s, t) ==> LatchEntries(cfg, link, t) == LatchEntries(cfg, link, s)
  {
  }

  lemma HandshakeOpen(cfg: Config, s: Chassis)
    requires Invariant(cfg, s)
    ensures s.clearPending ==> s.autonomous
  {
  }
}
