/** What every run of the race runtime guarantees. */
module RaceRuntimeTheorems {
  import opened Basics
  import opened TimedInput
  import opened RaceRuntime

  // ----- phases

  /** Without a restart the phase only moves forward, and `Finished` and `Fault` not at all. */
  lemma PhaseForward(cfg: Config, s: Runtime, e: Event)
    requires !Restarts(cfg, s, e)
    ensures var t := Step(cfg, s, e);
            && s.phase.Rank() <= t.phase.Rank()
            && (s.phase == Finished || s.phase == Fault ==> t.phase == s.phase)
            && (t.phase != s.phase ==> e.Tick?)
  {
    hide Begun, ResetAllowed, TickIdle, TickReady, TickArming, TickActive, TickStopping, TickFault;
  }

  lemma {:induction false} PhaseMonotone(cfg: Config, began: real, events: seq<Event>, i: nat, j: nat)
    requires i <= j <= |events| && SameEpoch(cfg, began, events, i, j)
    ensures var s, t := Run(cfg, began, events, i), Run(cfg, began, events, j);
            && s.phase.Rank() <= t.phase.Rank()
            && (s.phase == Finished || s.phase == Fault ==> t.phase == s.phase)
  {
    hide Step, Restarts;
    if i < j {
      PhaseMonotone(cfg, began, events, i, j - 1);
      PhaseForward(cfg, Run(cfg, began, events, j - 1), events[j - 1]);
    }
  }

  /** The terminal phases are left only by a granted reset or a clock that went back. */
  lemma TerminalPhasesLatch(cfg: Config, s: Runtime, e: Event)
    requires s.phase == Finished || s.phase == Fault
    requires Step(cfg, s, e).phase != s.phase
    ensures (e.ResetService? && ResetAllowed(cfg, s.inputs)) || (e.Tick? && RollsBack(s, e.now))
    ensures !Step(cfg, s, e).armed && Step(cfg, s, e).pending == PerService(NoCall, NoCall)
  {
    hide Step;
    if !Restarts(cfg, s, e) {
      PhaseForward(cfg, s, e);
    } else {
      RestartClears(cfg, s, e);
    }
  }

  lemma RestartClears(cfg: Config, s: Runtime, e: Event)
    requires Restarts(cfg, s, e)
    ensures var t := Step(cfg, s, e);
            && !t.armed && t.pending == PerService(NoCall, NoCall) && (t.phase == Idle || t.phase == Fault)
            && (e.ResetService? ==> t.phase == Idle)
            && (e.Tick? ==> t.phase == Fault ==> cfg.startupTimeout < 0.0)
  {
    if e.Tick? {
      Unlocalized(cfg, Begun(cfg, s, e.now).inputs, e.now);
    }
  }

  lemma Unlocalized(cfg: Config, i: Inputs, now: real)
    requires Latest(i, LOCALIZATION).None?
    ensures BaseFailure(cfg, i, now) == Some("LOCALIZATION_NOT_INITIALIZED")
  {
  }

  // ----- the invariant

  /** Calls left over from another purpose are never taken for an answer to this one. */
  predicate Invariant(s: Runtime) {
    && (s.armed ==> s.phase.Rank() >= 2)
    && (s.phase == Active || s.phase == Stopping ==> s.armed)
    && (s.phase == Idle ==> s.pending == PerService(NoCall, NoCall))
    && (s.phase.Rank() <= 3 ==> Asks(s.pending.controlMode, SetMode(Autonomous)) && Asks(s.pending.engage, SetEngage(true)))
    && (s.phase == Arming || s.phase == Active ==> s.pending.controlMode == Answered(SetMode(Autonomous), true))
  }

  predicate Asks(c: Call, r: Request) {
    c.NoCall? || c.request == r
  }

  lemma StepKeeps(cfg: Config, s: Runtime, e: Event)
    requires Invariant(s)
    ensures Invariant(Step(cfg, s, e))
  {
    hide BaseFailure, ActiveFailure, ClearedInputs, OnTick;
    if e.Tick? {
      TickKeeps(cfg, s, e.now, e.ready);
    }
  }

  lemma TickKeeps(cfg: Config, s: Runtime, now: real, ready: PerService<bool>)
    requires Invariant(s)
    ensures Invariant(OnTick(cfg, s, now, ready))
  {
    hide Begun, TickIdle, TickReady, TickArming, TickActive, TickStopping, TickFault;
  }

  lemma {:induction false} RunsKeep(cfg: Config, began: real, events: seq<Event>, n: nat)
    requires n <= |events|
    ensures Invariant(Run(cfg, began, events, n))
  {
    hide Step, Invariant;
    if n == 0 {
      StartsWell(cfg, began);
    } else {
      RunsKeep(cfg, began, events, n - 1);
      StepKeeps(cfg, Run(cfg, began, events, n - 1), events[n - 1]);
    }
  }

  lemma StartsWell(cfg: Config, began: real)
    ensures Invariant(Start(cfg, began))
  {
  }

  const AUTONOMOUS_CALL := InFlight(SetMode(Autonomous))
  const ACCEPTED := Answered(SetMode(Autonomous), true)

  /** A ready tick with everything healthy that calls for autonomous control. */
  predicate CallsAutonomous(cfg: Config, s: Runtime, e: Event) {
    && e.Tick? && !RollsBack(s, e.now) && s.phase == Ready && BaseFailure(cfg, s.inputs, e.now).None?
    && s.pending.controlMode != AUTONOMOUS_CALL && Step(cfg, s, e).pending.controlMode == AUTONOMOUS_CALL
  }

  /** Where a call for autonomous control, and its acceptance, can come from. */
  lemma CallOrigin(cfg: Config, s: Runtime, e: Event)
    ensures var t := Step(cfg, s, e);
            && (t.pending.controlMode == AUTONOMOUS_CALL ==>
                  !Restarts(cfg, s, e) && (s.pending.controlMode == AUTONOMOUS_CALL || CallsAutonomous(cfg, s, e)))
            && (t.pending.controlMode == ACCEPTED ==>
                  !Restarts(cfg, s, e)
                  && (s.pending.controlMode == ACCEPTED
                      || (s.pending.controlMode == AUTONOMOUS_CALL && e == Reply(ControlModeService, true))))
  {
    hide Begun, BaseFailure, ResetAllowed, TickIdle, TickReady, TickArming, TickActive, TickStopping, TickFault;
  }

  lemma {:induction false} CalledSince(cfg: Config, began: real, events: seq<Event>, n: nat) returns (c: nat)
    requires n <= |events| && Run(cfg, began, events, n).pending.controlMode == AUTONOMOUS_CALL
    ensures c < n && CallsAutonomous(cfg, Run(cfg, began, events, c), events[c]) && SameEpoch(cfg, began, events, c, n)
    ensures forall k: nat :: c < k <= n ==> Run(cfg, began, events, k).pending.controlMode == AUTONOMOUS_CALL
  {
    hide Step, CallsAutonomous, Restarts;
    c := n - 1;
    CallOrigin(cfg, Run(cfg, began, events, c), events[c]);
    if Run(cfg, began, events, c).pending.controlMode == AUTONOMOUS_CALL {
      c := CalledSince(cfg, began, events, n - 1);
    }
  }

  lemma {:induction false} AnsweredSince(cfg: Config, began: real, events: seq<Event>, n: nat) returns (r: nat)
    requires n <= |events| && Run(cfg, began, events, n).pending.controlMode == ACCEPTED
    ensures r < n && events[r] == Reply(ControlModeService, true) && SameEpoch(cfg, began, events, r, n)
    ensures Run(cfg, began, events, r).pending.controlMode == AUTONOMOUS_CALL
  {
    hide Step, CallsAutonomous, Restarts;
    r := n - 1;
    CallOrigin(cfg, Run(cfg, began, events, r), events[r]);
    if Run(cfg, began, events, r).pending.controlMode == ACCEPTED {
      r := AnsweredSince(cfg, began, events, n - 1);
    }
  }

  /**
    * `Arming` is entered only if the vehicle accepted a call for autonomous control: a ready
    * tick of this epoch made the call, nothing answered or replaced it until its acceptance,
    * and the acceptance stands.
    */
  lemma ArmingAfterAcceptance(cfg: Config, began: real, events: seq<Event>, n: nat) returns (c: nat, r: nat)
    requires n < |events| && Run(cfg, began, events, n).phase == Ready
    requires Run(cfg, began, events, n + 1).phase == Arming
    ensures c < r < n && SameEpoch(cfg, began, events, c, n)
    ensures CallsAutonomous(cfg, Run(cfg, began, events, c), events[c])
    ensures forall k: nat :: c < k <= r ==> Run(cfg, began, events, k).pending.controlMode == AUTONOMOUS_CALL
    ensures events[r] == Reply(ControlModeService, true)
    ensures Run(cfg, began, events, n).pending.controlMode == ACCEPTED
  {
    hide Step, Invariant, CallsAutonomous, Restarts;
    RunsKeep(cfg, began, events, n + 1);
    AcceptedBefore(cfg, Run(cfg, began, events, n), events[n]);
    r := AnsweredSince(cfg, began, events, n);
    c := CalledSince(cfg, began, events, r);
  }

  lemma AcceptedBefore(cfg: Config, s: Runtime, e: Event)
    requires s.phase == Ready && Step(cfg, s, e).phase == Arming && Invariant(Step(cfg, s, e))
    ensures s.pending.controlMode == ACCEPTED
  {
    hide Begun, ResetAllowed, TickIdle, TickReady, TickArming, TickActive, TickStopping, TickFault;
  }

  // ----- arming

  /** A tick that arms: everything healthy, raw control fresh, autonomous, in drive, told to stand still. */
  predicate ArmsAt(cfg: Config, s: Runtime, e: Event) {
    && e.Tick? && !RollsBack(s, e.now) && s.phase == Arming && !s.armed
    && Armable(cfg, s.inputs, e.now)
  }

  lemma ArmedBy(cfg: Config, s: Runtime, e: Event)
    ensures var t := Step(cfg, s, e);
            && (t.armed <==> ArmsAt(cfg, s, e) || (s.armed && !Restarts(cfg, s, e)))
            && (t.armed && s.armed ==> t.activationStamp == s.activationStamp)
            && (t.armed && !s.armed ==> t.activationStamp == e.now)
  {
    hide Begun, ResetAllowed, Armable, TickIdle, TickReady, TickArming, TickActive, TickStopping, TickFault;
  }

  /** Being armed goes back to one tick of this epoch. */
  lemma {:induction false} ArmedSince(cfg: Config, began: real, events: seq<Event>, n: nat) returns (k: nat)
    requires n <= |events| && Run(cfg, began, events, n).armed
    ensures k < n && ArmsAt(cfg, Run(cfg, began, events, k), events[k])
    ensures Run(cfg, began, events, n).activationStamp == events[k].now
    ensures SameEpoch(cfg, began, events, k, n)
  {
    hide Step, ArmsAt, Restarts;
    k := n - 1;
    var s, e := Run(cfg, began, events, k), events[k];
    ArmedBy(cfg, s, e);
    ArmingIsNoRestart(cfg, s, e);
    if s.armed {
      k := ArmedSince(cfg, began, events, n - 1);
    }
  }

  lemma ArmingIsNoRestart(cfg: Config, s: Runtime, e: Event)
    ensures ArmsAt(cfg, s, e) ==> e.Tick? && !Restarts(cfg, s, e) && !s.armed
  {
  }

  /** The tick that finds the engagement confirmed, everything healthy and raw control fresh. */
  predicate Confirms(cfg: Config, s: Runtime, e: Event) {
    && e.Tick? && !RollsBack(s, e.now) && s.phase == Arming && s.armed
    && Latest(s.inputs, ENGAGE) == Some(Engage(true))
    && BaseFailure(cfg, s.inputs, e.now).None? && s.inputs[RAW_CONTROL].Fresh(e.now, cfg.controlTimeout)
  }

  /** `Active` is entered exactly by such a tick; `Stopping` only from `Active`. */
  lemma EntersActiveExactly(cfg: Config, s: Runtime, e: Event)
    ensures s.phase != Active ==> (Step(cfg, s, e).phase == Active <==> Confirms(cfg, s, e))
    ensures Step(cfg, s, e).phase == Stopping ==> s.phase == Active || s.phase == Stopping
    ensures Step(cfg, s, e).phase == Active || Step(cfg, s, e).phase == Stopping ==> !Restarts(cfg, s, e)
  {
    hide Begun, ResetAllowed, Armable, TickIdle, TickReady, TickArming, TickActive, TickStopping, TickFault;
  }

  lemma {:induction false} ActiveSince(cfg: Config, began: real, events: seq<Event>, n: nat) returns (a: nat)
    requires n <= |events|
    requires Run(cfg, began, events, n).phase == Active || Run(cfg, began, events, n).phase == Stopping
    ensures a < n && Confirms(cfg, Run(cfg, began, events, a), events[a]) && Run(cfg, began, events, a + 1).phase == Active
    ensures SameEpoch(cfg, began, events, a, n)
  {
    hide Step, Confirms, Restarts;
    a := n - 1;
    var s := Run(cfg, began, events, a);
    EntersActiveExactly(cfg, s, events[a]);
    if s.phase == Active || s.phase == Stopping {
      a := ActiveSince(cfg, began, events, n - 1);
    }
  }

  /**
    * Control is enabled only when a tick of this epoch armed, and driving phases only when a
    * strictly later tick confirmed the engagement.
    */
  lemma EnabledOnlyAfterArming(cfg: Config, began: real, events: seq<Event>, n: nat) returns (k: nat, a: nat)
    requires n <= |events| && ControlEnabled(Run(cfg, began, events, n))
    ensures k < n && ArmsAt(cfg, Run(cfg, began, events, k), events[k]) && SameEpoch(cfg, began, events, k, n)
    ensures Run(cfg, began, events, n).phase != Arming ==>
              k < a < n && Confirms(cfg, Run(cfg, began, events, a), events[a]) && Run(cfg, began, events, a + 1).phase == Active
  {
    hide Step, ArmsAt, Restarts;
    RunsKeep(cfg, began, events, n);
    k := ArmedSince(cfg, began, events, n);
    a := 0;
    if Run(cfg, began, events, n).phase != Arming {
      a := ActiveSince(cfg, began, events, n);
      var l := ArmedSince(cfg, began, events, a);
      SameArming(cfg, began, events, k, l, a, n);
    }
  }

  /** One epoch has at most one arming tick. */
  lemma SameArming(cfg: Config, began: real, events: seq<Event>, k: nat, l: nat, a: nat, n: nat)
    requires k < n <= |events| && l < a < n
    requires ArmsAt(cfg, Run(cfg, began, events, k), events[k]) && ArmsAt(cfg, Run(cfg, began, events, l), events[l])
    requires SameEpoch(cfg, began, events, k, n) && SameEpoch(cfg, began, events, l, a)
    requires SameEpoch(cfg, began, events, a, n)
    ensures k == l
  {
    hide Step, Restarts;
    if k < l {
      StaysArmed(cfg, began, events, k, l);
    } else if l < k {
      StaysArmed(cfg, began, events, l, k);
    }
  }

  lemma {:induction false} StaysArmed(cfg: Config, began: real, events: seq<Event>, k: nat, n: nat)
    requires k < n <= |events| && ArmsAt(cfg, Run(cfg, began, events, k), events[k])
    requires SameEpoch(cfg, began, events, k, n)
    ensures Run(cfg, began, events, n).armed
  {
    hide Step, ArmsAt, Restarts;
    ArmedBy(cfg, Run(cfg, began, events, n - 1), events[n - 1]);
    if k < n - 1 {
      StaysArmed(cfg, began, events, k, n - 1);
    }
  }

  // ----- engaging

  /** The tick that sends the request to engage. */
  predicate RequestsEngage(cfg: Config, s: Runtime, e: Event) {
    && e.Tick? && s.pending.engage != InFlight(SetEngage(true))
    && Step(cfg, s, e).pending.engage == InFlight(SetEngage(true))
  }

  lemma RequestedBy(cfg: Config, s: Runtime, e: Event)
    requires RequestsEngage(cfg, s, e)
    ensures !RollsBack(s, e.now) && s.phase == Arming && s.armed
    ensures Armable(cfg, s.inputs, e.now) && s.inputs[RAW_CONTROL].receipt > s.activationStamp
  {
    hide Begun, ResetAllowed, Armable, TickIdle, TickReady, TickArming, TickActive, TickStopping, TickFault;
  }

  /** Engaging is requested only with raw control that arrived after the arming tick. */
  lemma EngageAfterNewControl(cfg: Config, began: real, events: seq<Event>, n: nat) returns (k: nat)
    requires n < |events| && RequestsEngage(cfg, Run(cfg, began, events, n), events[n])
    ensures k < n && ArmsAt(cfg, Run(cfg, began, events, k), events[k]) && SameEpoch(cfg, began, events, k, n)
    ensures var i := Run(cfg, began, events, n).inputs;
            Armable(cfg, i, events[n].now) && i[RAW_CONTROL].receipt > events[k].now
  {
    hide Step, ArmsAt, Restarts, RequestsEngage;
    RequestedBy(cfg, Run(cfg, began, events, n), events[n]);
    k := ArmedSince(cfg, began, events, n);
  }

  // ----- staleness while active

  /** The inputs an active vehicle needs, and how old they may be. */
  function Timeout(cfg: Config, topic: nat): Option<real> {
    if topic == ODOMETRY then Some(cfg.localizationTimeout)
    else if topic == TRAJECTORY then Some(cfg.trajectoryTimeout)
    else if topic == VELOCITY then Some(cfg.velocityTimeout)
    else if topic == STEERING || topic == GEAR || topic == CONTROL_MODE then Some(cfg.vehicleTimeout)
    else if topic == RAW_CONTROL || topic == FINAL_CONTROL then Some(cfg.controlTimeout)
    else None
  }

  predicate AllFresh(cfg: Config, i: Inputs, now: real) {
    forall topic: nat :: topic < TOPICS && Timeout(cfg, topic).Some? ==> i[topic].Fresh(now, Timeout(cfg, topic).value)
  }

  /** An active tick faults exactly when something required is stale, missing or no longer autonomous. */
  lemma ActiveFaultsExactly(cfg: Config, s: Runtime, now: real, ready: PerService<bool>)
    requires s.phase == Active && !RollsBack(s, now)
    ensures var t := OnTick(cfg, s, now, ready);
            && t.inputs == s.inputs && (t.phase == Active || t.phase == Stopping || t.phase == Fault)
            && (t.phase == Fault <==>
                  !(AllFresh(cfg, s.inputs, now) && HasPath(s.inputs)
                    && Latest(s.inputs, LOCALIZATION) == Some(Localization(true))
                    && Latest(s.inputs, CONTROL_MODE) == Some(ModeReport(Autonomous))))
  {
    assert Timeout(cfg, ODOMETRY).Some? && Timeout(cfg, TRAJECTORY).Some? && Timeout(cfg, VELOCITY).Some?;
    assert Timeout(cfg, STEERING).Some? && Timeout(cfg, GEAR).Some? && Timeout(cfg, CONTROL_MODE).Some?;
    assert Timeout(cfg, RAW_CONTROL).Some? && Timeout(cfg, FINAL_CONTROL).Some?;
  }

  predicate TimeoutsSet(cfg: Config) {
    && cfg.localizationTimeout >= 0.0 && cfg.trajectoryTimeout >= 0.0 && cfg.controlTimeout >= 0.0
    && cfg.velocityTimeout >= 0.0 && cfg.vehicleTimeout >= 0.0
  }

  /** The clock reading a callback takes. */
  function TimeOf(e: Event): Option<real> {
    match e
    case Receive(_, now, _) => Some(now)
    case ResetService(now) => Some(now)
    case Tick(now, _) => Some(now)
    case _ => None
  }

  /** The clock does not go back between `since` and `now`. */
  predicate ClockRuns(events: seq<Event>, from: nat, to: nat, since: real, now: real)
    requires from <= to <= |events|
  {
    && since <= now
    && (forall k :: from <= k < to && TimeOf(events[k]).Some? ==> since <= TimeOf(events[k]).value <= now)
    && (forall j, k :: from <= j < k < to && TimeOf(events[j]).Some? && TimeOf(events[k]).Some? ==>
          TimeOf(events[j]).value <= TimeOf(events[k]).value)
  }

  predicate NoTick(events: seq<Event>, from: nat, to: nat)
    requires from <= to <= |events|
  {
    forall k :: from <= k < to ==> !events[k].Tick?
  }

  lemma QuietStep(cfg: Config, s: Runtime, e: Event, topic: nat)
    requires !e.Tick? && topic < TOPICS
    ensures Step(cfg, s, e).inputs[topic]
         == if e.Receive? && topic == Topic(e.message) then s.inputs[topic].Updated(e.message, e.now, e.stamp).0
            else s.inputs[topic]
  {
  }

  /** No message is taken whose stamp is older than the stored one of its topic. */
  ghost predicate StampsInOrder(cfg: Config, began: real, events: seq<Event>, from: nat, to: nat)
    requires from <= to <= |events|
  {
    forall k: nat :: from <= k < to && events[k].Receive? ==> InOrder(Run(cfg, began, events, k), events[k])
  }

  predicate InOrder(s: Runtime, e: Event)
    requires e.Receive?
  {
    var tracker := s.inputs[Topic(e.message)];
    tracker.Updated(e.message, e.now, e.stamp).1 ==> e.stamp >= tracker.source
  }

  /** Between ticks a tracker changes only by updates. */
  lemma {:induction false} BetweenTicks(
    cfg: Config, began: real, events: seq<Event>, from: nat, to: nat, since: real, now: real, topic: nat)
    requires from <= to <= |events| && NoTick(events, from, to) && ClockRuns(events, from, to, since, now)
    requires topic < TOPICS
    ensures Follows(Run(cfg, began, events, from).inputs[topic], Run(cfg, began, events, to).inputs[topic], since, now)
    ensures StampsInOrder(cfg, began, events, from, to) ==>
              Run(cfg, began, events, to).inputs[topic].source >= Run(cfg, began, events, from).inputs[topic].source
  {
    hide Step, Topic;
    if from < to {
      var e, s := events[to - 1], Run(cfg, began, events, to - 1);
      var middle := if TimeOf(e).Some? then TimeOf(e).value else now;
      BetweenTicks(cfg, began, events, from, to - 1, since, middle, topic);
      QuietStep(cfg, s, e, topic);
      if e.Receive? {
        SourceFallsExactly(s.inputs[Topic(e.message)], e.message, e.now, e.stamp);
        UpdateFollows(Run(cfg, began, events, from).inputs[topic], s.inputs[topic], since, e.message, middle, e.stamp, now);
      }
    }
  }

  /** No older than the timeout and the tick period, up to the ordering slack per message. */
  predicate BoundedAge(cfg: Config, at: Inputs, i: Inputs, now: real, period: real) {
    forall topic: nat :: topic < TOPICS && Timeout(cfg, topic).Some? ==>
      var limit := Timeout(cfg, topic).value + period;
      && i[topic].message.Some? && now - i[topic].receipt <= limit
      && now - i[topic].source <= limit + (i[topic].sequence - at[topic].sequence) as real * STAMP_SLACK
  }

  /** The same without the slack. */
  predicate StrictAge(cfg: Config, i: Inputs, now: real, period: real) {
    forall topic: nat :: topic < TOPICS && Timeout(cfg, topic).Some? ==>
      now - i[topic].source <= Timeout(cfg, topic).value + period
  }

  lemma {:induction false} LastTick(events: seq<Event>, first: nat, n: nat) returns (t: nat)
    requires first < n <= |events| && events[first].Tick?
    ensures first <= t < n && events[t].Tick? && NoTick(events, t + 1, n)
  {
    t := n - 1;
    if !events[t].Tick? {
      t := LastTick(events, first, n - 1);
    }
  }

  /** The age bound after one tick that found and left the vehicle active. */
  lemma BoundedAfterTick(
    cfg: Config, began: real, events: seq<Event>, t: nat, n: nat, now: real, period: real)
    requires t < n <= |events| && events[t].Tick? && NoTick(events, t + 1, n) && TimeoutsSet(cfg)
    requires var s := Run(cfg, began, events, t); s.phase == Active && !RollsBack(s, events[t].now)
    requires Run(cfg, began, events, t + 1).phase == Active
    requires ClockRuns(events, t + 1, n, events[t].now, now) && now <= events[t].now + period
    ensures BoundedAge(cfg, Run(cfg, began, events, t).inputs, Run(cfg, began, events, n).inputs, now, period)
    ensures StampsInOrder(cfg, began, events, t + 1, n) ==> StrictAge(cfg, Run(cfg, began, events, n).inputs, now, period)
  {
    hide OnTick, ClockRuns, StampsInOrder;
    var s, e := Run(cfg, began, events, t), events[t];
    ActiveFaultsExactly(cfg, s, e.now, e.ready);
    assert Run(cfg, began, events, t + 1) == OnTick(cfg, s, e.now, e.ready);
    assert events[t].now <= now by { ClockOrder(events, t + 1, n, events[t].now, now); }
    hide Run;
    forall topic: nat | topic < TOPICS && Timeout(cfg, topic).Some?
      ensures var limit, i, at := Timeout(cfg, topic).value + period, Run(cfg, began, events, n).inputs, s.inputs;
              && i[topic].message.Some? && now - i[topic].receipt <= limit
              && now - i[topic].source <= limit + (i[topic].sequence - at[topic].sequence) as real * STAMP_SLACK
              && (StampsInOrder(cfg, began, events, t + 1, n) ==> now - i[topic].source <= limit)
    {
      BetweenTicks(cfg, began, events, t + 1, n, e.now, now, topic);
      StalenessGrows(s.inputs[topic], Run(cfg, began, events, n).inputs[topic], e.now, now, Timeout(cfg, topic).value, period);
    }
  }

  lemma ClockOrder(events: seq<Event>, from: nat, to: nat, since: real, now: real)
    requires from <= to <= |events| && ClockRuns(events, from, to, since, now)
    ensures since <= now
  {
  }

  /**
    * Once a tick has run while active, for as long as the vehicle stays active in this epoch
    * and the next tick is at most `period` late, no required input is older than its timeout
    * plus `period`: for the source stamps up to the slack per message, and without it if no
    * message was taken out of order since the last tick.
    */
  lemma BoundedStaleness(
    cfg: Config, began: real, events: seq<Event>, first: nat, n: nat, now: real, period: real) returns (t: nat)
    requires first < n <= |events| && events[first].Tick? && TimeoutsSet(cfg)
    requires Run(cfg, began, events, first).phase == Active && Run(cfg, began, events, n).phase == Active
    requires SameEpoch(cfg, began, events, first, n) && ClockRuns(events, first, n, events[first].now, now)
    requires forall k :: first <= k < n && events[k].Tick? && NoTick(events, k + 1, n) ==> now <= events[k].now + period
    ensures first <= t < n && events[t].Tick? && NoTick(events, t + 1, n)
    ensures BoundedAge(cfg, Run(cfg, began, events, t).inputs, Run(cfg, began, events, n).inputs, now, period)
    ensures StampsInOrder(cfg, began, events, t + 1, n) ==> StrictAge(cfg, Run(cfg, began, events, n).inputs, now, period)
  {
    hide Run, BoundedAge, StrictAge, StampsInOrder, SameEpoch, ClockRuns, Restarts, RollsBack;
    t := LastTick(events, first, n);
    StaysActive(cfg, began, events, first, t, n);
    LaterClock(events, first, t, n, events[first].now, now);
    NotRolledBack(cfg, Run(cfg, began, events, t), events[t]);
    BoundedAfterTick(cfg, began, events, t, n, now, period);
  }

  lemma NotRolledBack(cfg: Config, s: Runtime, e: Event)
    requires e.Tick? && !Restarts(cfg, s, e)
    ensures !RollsBack(s, e.now)
  {
  }

  lemma StaysActive(cfg: Config, began: real, events: seq<Event>, first: nat, t: nat, n: nat)
    requires first <= t < n <= |events| && SameEpoch(cfg, began, events, first, n)
    requires Run(cfg, began, events, first).phase == Active && Run(cfg, began, events, n).phase == Active
    ensures Run(cfg, began, events, t).phase == Active && Run(cfg, began, events, t + 1).phase == Active
    ensures !Restarts(cfg, Run(cfg, began, events, t), events[t])
  {
    hide Run, Restarts;
    PhaseMonotone(cfg, began, events, first, t);
    PhaseMonotone(cfg, began, events, t, t + 1);
    PhaseMonotone(cfg, began, events, t + 1, n);
  }

  lemma LaterClock(events: seq<Event>, first: nat, t: nat, n: nat, since: real, now: real)
    requires first <= t < n <= |events| && ClockRuns(events, first, n, since, now) && events[t].Tick?
    ensures ClockRuns(events, t + 1, n, events[t].now, now)
  {
    assert TimeOf(events[t]) == Some(events[t].now);
  }
}
