/**
  * The history of the chassis node: what it received and what it put on the wire. `Digest`
  * sums a history up; `Justified` says when a frame may follow one.
  */
module ChassisJournal {
  import opened Basics
  import opened SerialProtocol
  import opened VehicleState

  datatype Config = Config(
    telemetryOnly: bool, limits: Limits, emergencyTimeoutMs: int, hallTimeouts: HallTimeouts)

  datatype Entry =
    | EmergencySeen(active: bool, atMs: int)
    | GearSet(gear: Gear)
    | Telemetry(status: Status)
    | Accepted(atMs: int)
    | Released
    | StopLatched
    | Opened
    | Closed
    | MotionSent(command: ChassisCommand, stampNs: int, checkedMs: int)
    | StopSent
    | ClearSent

  type Journal = seq<Entry>

  const SOFTWARE_STOP := ChassisCommand(Finite(0.0), Finite(0.0), false, true, false)
  const CLEAR_FAULT := ChassisCommand(Finite(0.0), Finite(0.0), false, false, true)
  const NO_STAMP := -0x8000_0000_0000_0000

  /** The command a frame entry put on the wire. */
  function SentCommand(e: Entry): Option<ChassisCommand> {
    match e
    case MotionSent(command, _, _) => Some(command)
    case StopSent => Some(SOFTWARE_STOP)
    case ClearSent => Some(CLEAR_FAULT)
    case _ => None
  }

  /** Authorization ends here. */
  predicate Revokes(e: Entry) {
    e.Released? || e.StopLatched? || e.Closed? || (e.EmergencySeen? && e.active)
  }

  predicate ZeroMotion(e: Entry) {
    e.MotionSent? && e.command.speed == Finite(0.0) && e.command.steering == Finite(0.0)
  }

  /** Telemetry that confirms the historical latch is clear under automatic ownership. */
  predicate ConfirmsClear(status: Status) {
    status.ReportedMode() == Autonomous
  }

  datatype Summary = Summary(
    authorised: bool,            // an acceptance stands
    unstopped: bool,             // an enabled frame not followed by a stop or a close
    portOpen: bool,
    telemetrySeen: bool,
    heard: bool,                 // telemetry since the latest close
    status: Status,              // of the latest telemetry
    gear: Gear,                  // of the latest accepted gear command
    emergency: EmergencyState,   // the latest emergency status
    newestStampNs: int,          // of the latest enabled frame
    handshake: bool,             // accepted under a latched fault, not yet confirmed clear
    handshakeZero: bool,         // ... and an enabled zero frame was written since
    handshakeClear: bool)        // ... and a clear-fault frame was written since

  const BLANK := Summary(
    false, false, false, false, false, NO_STATUS, Park, EmergencyState(0, false, false), NO_STAMP, false, false, false)

  function EndHandshake(d: Summary): Summary {
    d.(handshake := false, handshakeZero := false, handshakeClear := false)
  }

  function Note(d: Summary, e: Entry): Summary {
    match e
    case EmergencySeen(active, atMs) =>
      var seen := d.(emergency := EmergencyState(atMs, true, active));
      if active then EndHandshake(seen.(authorised := false)) else seen
    case GearSet(gear) => d.(gear := gear)
    case Telemetry(status) =>
      var seen := d.(telemetrySeen := true, heard := true, status := status);
      if ConfirmsClear(status) then EndHandshake(seen) else seen
    case Accepted(_) =>
      var granted := d.(authorised := true);
      if !d.status.faultLatched then EndHandshake(granted)
      else if d.handshake then granted
      else EndHandshake(granted).(handshake := true)
    case Released => EndHandshake(d.(authorised := false))
    case StopLatched => EndHandshake(d.(authorised := false))
    case Opened => d.(portOpen := true)
    case Closed => EndHandshake(d.(authorised := false, unstopped := false, portOpen := false, heard := false))
    case MotionSent(_, stampNs, _) =>
      d.(unstopped := true, newestStampNs := stampNs, handshakeZero := d.handshake && (d.handshakeZero || ZeroMotion(e)))
    case StopSent => d.(unstopped := false)
    case ClearSent => d.(handshakeClear := d.handshake)
  }

  function Digest(j: Journal): Summary {
    if j == [] then BLANK else Note(Digest(j[..|j| - 1]), j[|j| - 1])
  }

  /** What must hold of the history before an entry for it to be allowed there. */
  predicate Justified(cfg: Config, d: Summary, e: Entry) {
    match e
    case MotionSent(command, stampNs, checkedMs) =>
      && !cfg.telemetryOnly && d.portOpen && d.authorised && d.telemetrySeen
      && command.enable && !command.softwareStop && !command.clearFault
      && command.speed.Finite? && command.steering.Finite?
      && FitsWire(command.speed) && FitsWire(command.steering)
      && d.emergency.FreshAndClear(checkedMs, cfg.emergencyTimeoutMs)
      && !d.status.rcInputFault
      && (d.status.faultLatched || d.handshake ==> ZeroMotion(e))
      && WithinLimits(cfg.limits, command.speed.value, command.steering.value)
      && GearAllows(d.gear, command.speed.value)
      && d.newestStampNs <= stampNs
    case StopSent => !cfg.telemetryOnly && d.portOpen
    case ClearSent =>
      && !cfg.telemetryOnly && d.portOpen && d.authorised && d.status.FaultClearPermitted()
      && d.handshake && d.handshakeZero && !d.handshakeClear
    case Accepted(atMs) =>
      && !cfg.telemetryOnly && d.portOpen && d.heard && !d.status.rcInputFault
      && d.emergency.FreshAndClear(atMs, cfg.emergencyTimeoutMs)
    case Telemetry(status) => status == ReadStatus(status.word)
    case _ => true
  }

  predicate Safe(cfg: Config, j: Journal) {
    j == [] || (Safe(cfg, j[..|j| - 1]) && Justified(cfg, Digest(j[..|j| - 1]), j[|j| - 1]))
  }

  lemma Extend(cfg: Config, j: Journal, e: Entry)
    ensures Digest(j + [e]) == Note(Digest(j), e)
    ensures Safe(cfg, j + [e]) <==> Safe(cfg, j) && Justified(cfg, Digest(j), e)
  {
    assert (j + [e])[..|j|] == j;
  }

  lemma {:induction false} SafeAt(cfg: Config, j: Journal, k: nat)
    requires Safe(cfg, j) && k < |j|
    ensures Safe(cfg, j[..k]) && Justified(cfg, Digest(j[..k]), j[k])
  {
    if k < |j| - 1 {
      SafeAt(cfg, j[..|j| - 1], k);
      assert j[..|j| - 1][..k] == j[..k];
    }
  }

  // ----- which entries change which part of the summary

  lemma NoteAuthorised(d: Summary, e: Entry)
    ensures Note(d, e).authorised <==> e.Accepted? || (d.authorised && !Revokes(e))
  {
    hide ConfirmsClear, ZeroMotion;
  }

  lemma NoteEmergency(d: Summary, e: Entry)
    ensures Note(d, e).emergency == if e.EmergencySeen? then EmergencyState(e.atMs, true, e.active) else d.emergency
  {
    hide ConfirmsClear, ZeroMotion;
  }

  lemma NoteTelemetry(d: Summary, e: Entry)
    ensures Note(d, e).telemetrySeen <==> e.Telemetry? || d.telemetrySeen
    ensures Note(d, e).status == if e.Telemetry? then e.status else d.status
  {
    hide ConfirmsClear, ZeroMotion;
  }

  lemma NotePort(d: Summary, e: Entry)
    ensures Note(d, e).portOpen <==> e.Opened? || (d.portOpen && !e.Closed?)
  {
    hide ConfirmsClear, ZeroMotion;
  }

  lemma NoteHeard(d: Summary, e: Entry)
    ensures Note(d, e).heard <==> e.Telemetry? || (d.heard && !e.Closed?)
  {
    hide ConfirmsClear, ZeroMotion;
    match e
    case EmergencySeen(_, _) =>
    case GearSet(_) =>
    case Telemetry(_) =>
    case Accepted(_) =>
    case Released =>
    case StopLatched =>
    case Opened =>
    case Closed =>
    case MotionSent(_, _, _) =>
    case StopSent =>
    case ClearSent =>
  }

  lemma NoteGear(d: Summary, e: Entry)
    ensures Note(d, e).gear == if e.GearSet? then e.gear else d.gear
  {
    hide ConfirmsClear, ZeroMotion;
  }

  lemma NoteFrames(d: Summary, e: Entry)
    ensures Note(d, e).newestStampNs == if e.MotionSent? then e.stampNs else d.newestStampNs
    ensures Note(d, e).unstopped <==> e.MotionSent? || (d.unstopped && !e.StopSent? && !e.Closed?)
  {
    hide ConfirmsClear, ZeroMotion;
  }

  // ----- what the summary says about positions in the history

  /** Acceptance `a` stands: nothing revoked it since. */
  predicate StandsSince(j: Journal, a: nat) {
    a < |j| && j[a].Accepted? && forall k :: a < k < |j| ==> !Revokes(j[k])
  }

  lemma {:induction false} AuthorisedSince(j: Journal) returns (a: nat)
    ensures Digest(j).authorised ==> StandsSince(j, a)
  {
    a := 0;
    if j != [] {
      var n := |j| - 1;
      NoteAuthorised(Digest(j[..n]), j[n]);
      hide Note;
      a := AuthorisedSince(j[..n]);
      if j[n].Accepted? {
        a := n;
      }
    }
  }

  lemma {:induction false} StandingAuthorises(j: Journal, a: nat)
    requires StandsSince(j, a)
    ensures Digest(j).authorised
  {
    var n := |j| - 1;
    NoteAuthorised(Digest(j[..n]), j[n]);
    hide Note;
    if a < n {
      StandingAuthorises(j[..n], a);
    }
  }

  /** Authorized is: some acceptance stands. */
  lemma AuthorisedExactly(j: Journal)
    ensures Digest(j).authorised <==> exists a: nat :: StandsSince(j, a)
  {
    var found := AuthorisedSince(j);
    if a: nat :| StandsSince(j, a) {
      StandingAuthorises(j, a);
    }
  }

  /** Telemetry entry `t` was not followed by a close. */
  predicate HeardSince(j: Journal, t: nat) {
    t < |j| && j[t].Telemetry? && forall k :: t < k < |j| ==> !j[k].Closed?
  }

  lemma {:induction false} HeardEntry(j: Journal) returns (t: nat)
    ensures Digest(j).heard ==> HeardSince(j, t)
  {
    t := 0;
    if j != [] {
      var n := |j| - 1;
      NoteHeard(Digest(j[..n]), j[n]);
      hide Note;
      t := HeardEntry(j[..n]);
      if j[n].Telemetry? {
        t := n;
      }
    }
  }

  lemma {:induction false} HeardStays(j: Journal, t: nat)
    requires HeardSince(j, t)
    ensures Digest(j).heard
  {
    var n := |j| - 1;
    NoteHeard(Digest(j[..n]), j[n]);
    hide Note;
    if t < n {
      HeardStays(j[..n], t);
    }
  }

  lemma HeardExactly(j: Journal)
    ensures Digest(j).heard <==> exists t: nat :: HeardSince(j, t)
  {
    var found := HeardEntry(j);
    if t: nat :| HeardSince(j, t) {
      HeardStays(j, t);
    }
  }

  /** The port is open since the opening at `o`. */
  predicate OpenSince(j: Journal, o: nat) {
    o < |j| && j[o].Opened? && forall k :: o < k < |j| ==> !j[k].Opened? && !j[k].Closed?
  }

  lemma {:induction false} OpeningEntry(j: Journal) returns (o: nat)
    requires Digest(j).portOpen
    ensures OpenSince(j, o)
  {
    var n := |j| - 1;
    NotePort(Digest(j[..n]), j[n]);
    hide Note;
    if j[n].Opened? {
      o := n;
    } else {
      o := OpeningEntry(j[..n]);
    }
  }

  lemma {:induction false} LatestEmergency(j: Journal) returns (m: nat)
    requires Digest(j).emergency.received
    ensures m < |j| && j[m].EmergencySeen?
    ensures Digest(j).emergency == EmergencyState(j[m].atMs, true, j[m].active)
    ensures forall k :: m < k < |j| ==> !j[k].EmergencySeen?
  {
    var n := |j| - 1;
    NoteEmergency(Digest(j[..n]), j[n]);
    hide Note;
    if j[n].EmergencySeen? {
      m := n;
    } else {
      m := LatestEmergency(j[..n]);
    }
  }

  lemma {:induction false} LatestTelemetry(j: Journal) returns (t: nat)
    requires Digest(j).telemetrySeen
    ensures t < |j| && j[t].Telemetry? && j[t].status == Digest(j).status
    ensures forall k :: t < k < |j| ==> !j[k].Telemetry?
  {
    var n := |j| - 1;
    NoteTelemetry(Digest(j[..n]), j[n]);
    hide Note;
    if j[n].Telemetry? {
      t := n;
    } else {
      t := LatestTelemetry(j[..n]);
    }
  }

  /** `None`: no gear command was accepted yet and the gear is Park. */
  lemma {:induction false} LatestGear(j: Journal) returns (g: Option<nat>)
    ensures g.None? ==> Digest(j).gear == Park && forall k :: 0 <= k < |j| ==> !j[k].GearSet?
    ensures g.Some? ==> g.value < |j| && j[g.value].GearSet? && j[g.value].gear == Digest(j).gear
                        && forall k :: g.value < k < |j| ==> !j[k].GearSet?
  {
    if j == [] {
      g := None;
    } else {
      NoteGear(Digest(j[..|j| - 1]), j[|j| - 1]);
      hide Note;
      if j[|j| - 1].GearSet? {
        g := Some(|j| - 1);
      } else {
        g := LatestGear(j[..|j| - 1]);
      }
    }
  }
}
