/** What the requests, clocks and calls of the race runtime mean over whole runs. */
module RaceRuntimeRuns {
  import opened RaceRuntime
  import opened RaceRuntimeTheorems
  import opened RaceRuntimeTicks

  // ----- what a tick leaves alone

  predicate SameRequests(s: Runtime, t: Runtime) {
    t.startRequested == s.startRequested && t.stopRequested == s.stopRequested && t.startSec == s.startSec
  }

  lemma CallSame(cfg: Config, s: Runtime, service: Service, request: Request, ready: bool, now: real)
    ensures SameRequests(s, CallService(cfg, s, service, request, ready, now))
  {
  }

  lemma ReadySame(cfg: Config, s: Runtime, now: real, ready: PerService<bool>)
    ensures SameRequests(s, TickReady(cfg, s, now, ready))
  {
    hide BaseFailure, CallService;
    CallSame(cfg, s, ControlModeService, SetMode(Autonomous), ready.controlMode, now);
  }

  lemma ArmingSame(cfg: Config, s: Runtime, now: real, ready: PerService<bool>)
    ensures SameRequests(s, TickArming(cfg, s, now, ready))
  {
    hide SameRequests, BaseFailure, StandsReady, CallService, Missing, Reason, Enter, Faulted, Armed;
    CallSame(cfg, s, EngageService, SetEngage(true), ready.engage, now);
    MarksSame(s, now);
  }

  lemma MarksSame(s: Runtime, now: real)
    ensures SameRequests(s, s) && SameRequests(s, Armed(s, now))
    ensures forall phase, reason :: SameRequests(s, Enter(s, phase, reason))
    ensures forall reason :: SameRequests(s, Reason(s, reason)) && SameRequests(s, Faulted(s, reason))
  {
  }

  lemma DisengageSame(cfg: Config, s: Runtime, now: real, ready: PerService<bool>)
    ensures SameRequests(s, Disengage(cfg, s, now, ready))
  {
    hide CallService;
    CallSame(cfg, s, EngageService, SetEngage(false), ready.engage, now);
    var engaged := CallService(cfg, s, EngageService, SetEngage(false), ready.engage, now);
    CallSame(cfg, engaged, ControlModeService, SetMode(Manual), ready.controlMode, now);
  }

  lemma TickSame(cfg: Config, s: Runtime, now: real, ready: PerService<bool>)
    requires !RollsBack(s, now)
    ensures SameRequests(s, OnTick(cfg, s, now, ready))
  {
    hide Begun, BaseFailure, ActiveFailure, Disengage, TickReady, TickArming, Stopped, StopConfirmed;
    var begun := Begun(cfg, s, now);
    ReadySame(cfg, begun, now, ready);
    ArmingSame(cfg, begun, now, ready);
    DisengageSame(cfg, begun, now, ready);
  }

  // ----- requests

  /** Where a stop request, and a start request, can come from. */
  lemma RequestStep(cfg: Config, s: Runtime, e: Event)
    ensures var t := Step(cfg, s, e);
            && (t.stopRequested <==> e.StopService? || (s.stopRequested && !Restarts(cfg, s, e)))
            && (t.startRequested <==>
                  || (e.StartService? && (s.phase == Idle || s.phase == Ready))
                  || (if Restarts(cfg, s, e) then cfg.autoStart else s.startRequested))
  {
    hide OnTick, MayReset;
    RestartsExactly(cfg, s, e);
    if e.Tick? {
      if RollsBack(s, e.now) {
        RollbackExactly(cfg, s, e.now, e.ready);
        if cfg.autoStart { } else { }
      } else {
        TickSame(cfg, s, e.now, e.ready);
      }
    }
  }

  /** A stop was requested at event `k` and nothing restarted since. */
  ghost predicate StopSince(cfg: Config, began: real, events: seq<Event>, k: nat, n: nat)
    requires n <= |events|
  {
    k < n && events[k].StopService? && SameEpoch(cfg, began, events, k, n)
  }

  /** A start was granted at event `k` and nothing restarted since. */
  ghost predicate StartSince(cfg: Config, began: real, events: seq<Event>, k: nat, n: nat)
    requires n <= |events|
  {
    && k < n && events[k].StartService? && SameEpoch(cfg, began, events, k, n)
    && (Run(cfg, began, events, k).phase == Idle || Run(cfg, began, events, k).phase == Ready)
  }

  lemma {:induction false} StopRequestedExactly(cfg: Config, began: real, events: seq<Event>, n: nat)
    requires n <= |events|
    ensures Run(cfg, began, events, n).stopRequested <==> exists k: nat :: StopSince(cfg, began, events, k, n)
  {
    hide Step, Restarts;
    if n > 0 {
      var s, e := Run(cfg, began, events, n - 1), events[n - 1];
      StopRequestedExactly(cfg, began, events, n - 1);
      RequestStep(cfg, s, e);
      if !Restarts(cfg, s, e) {
        var m := n - 1;
        if k: nat :| StopSince(cfg, began, events, k, m) { assert StopSince(cfg, began, events, k, n); }
      }
      if k: nat :| StopSince(cfg, began, events, k, n) && k < n - 1 {
        assert StopSince(cfg, began, events, k, n - 1);
      }
      if e.StopService? {
        assert !Restarts(cfg, s, e) by { NoRestart(cfg, s, e); }
        assert StopSince(cfg, began, events, n - 1, n);
      }
    }
  }

  lemma NoRestart(cfg: Config, s: Runtime, e: Event)
    requires e.StopService? || e.StartService?
    ensures !Restarts(cfg, s, e)
  {
  }

  lemma {:induction false} StartRequestedExactly(cfg: Config, began: real, events: seq<Event>, n: nat)
    requires n <= |events|
    ensures Run(cfg, began, events, n).startRequested <==>
            cfg.autoStart || exists k: nat :: StartSince(cfg, began, events, k, n)
  {
    hide Step, Restarts;
    if n > 0 {
      var s, e := Run(cfg, began, events, n - 1), events[n - 1];
      StartRequestedExactly(cfg, began, events, n - 1);
      RequestStep(cfg, s, e);
      if !Restarts(cfg, s, e) {
        var m := n - 1;
        if k: nat :| StartSince(cfg, began, events, k, m) { assert StartSince(cfg, began, events, k, n); }
      }
      if k: nat :| StartSince(cfg, began, events, k, n) && k < n - 1 {
        assert StartSince(cfg, began, events, k, n - 1);
      }
      if e.StartService? && (s.phase == Idle || s.phase == Ready) {
        assert !Restarts(cfg, s, e) by { NoRestart(cfg, s, e); }
        assert StartSince(cfg, began, events, n - 1, n);
      }
    }
  }

  /** Once a stop was requested, no tick of the same epoch that finds the vehicle driving leaves it driving. */
  lemma StopIsHonoured(cfg: Config, began: real, events: seq<Event>, k: nat, t: nat)
    requires k < t < |events| && events[k].StopService? && events[t].Tick? && SameEpoch(cfg, began, events, k, t + 1)
    requires Run(cfg, began, events, t).phase == Active
    ensures var u := Run(cfg, began, events, t + 1);
            (u.phase == Stopping || u.phase == Fault)
            && (u.phase == Stopping <==> Driving(cfg, Run(cfg, began, events, t).inputs, events[t].now))
  {
    hide OnTick, Driving, Restarts;
    var s, e := Run(cfg, began, events, t), events[t];
    StopRequestedExactly(cfg, began, events, t);
    assert StopSince(cfg, began, events, k, t);
    assert !Restarts(cfg, s, e);
    RestartsExactly(cfg, s, e);
    ActiveExactly(cfg, s, e.now, e.ready);
  }

  /** Whatever phase past IDLE a run is in without an automatic start, a start was granted in its epoch. */
  lemma {:induction false} StartedBefore(cfg: Config, began: real, events: seq<Event>, n: nat) returns (k: nat)
    requires n <= |events| && !cfg.autoStart && Run(cfg, began, events, n).phase != Idle
    ensures StartSince(cfg, began, events, k, n)
  {
    hide Step, Restarts;
    var s, e := Run(cfg, began, events, n - 1), events[n - 1];
    LeavesIdle(cfg, s, e);
    if s.phase == Idle {
      StartRequestedExactly(cfg, began, events, n - 1);
      k :| StartSince(cfg, began, events, k, n - 1);
    } else {
      k := StartedBefore(cfg, began, events, n - 1);
    }
  }

  lemma LeavesIdle(cfg: Config, s: Runtime, e: Event)
    requires !cfg.autoStart && Step(cfg, s, e).phase != Idle
    ensures !Restarts(cfg, s, e) && (s.phase == Idle ==> s.startRequested)
  {
    hide OnTick, MayReset, Healthy;
    RestartsExactly(cfg, s, e);
    if e.Tick? {
      if WentBack(s, e.now) {
        RollbackExactly(cfg, s, e.now, e.ready);
      } else if s.phase == Idle {
        IdleExactly(cfg, s, e.now, e.ready);
      }
    } else if e.ResetService? {
      ResetExactly(cfg, s, e.now);
    }
  }

  // ----- the clock

  /** Tick `t` is the last one before `n`. */
  predicate LastTickIs(events: seq<Event>, t: nat, n: nat)
    requires n <= |events|
  {
    t < n && events[t].Tick? && forall k :: t < k < n ==> !events[k].Tick?
  }

  lemma {:induction false} LastNowExactly(cfg: Config, began: real, events: seq<Event>, n: nat)
    requires n <= |events|
    ensures forall t: nat :: LastTickIs(events, t, n) ==> Run(cfg, began, events, n).lastNow == events[t].now
    ensures (forall t: nat :: !LastTickIs(events, t, n)) ==> Run(cfg, began, events, n).lastNow == -1.0
  {
    hide OnTick;
    if n > 0 {
      var s, e := Run(cfg, began, events, n - 1), events[n - 1];
      LastNowExactly(cfg, began, events, n - 1);
      if e.Tick? {
        TickNotes(cfg, s, e.now, e.ready);
        assert LastTickIs(events, n - 1, n) && forall t: nat :: LastTickIs(events, t, n) ==> t == n - 1;
      } else {
        QuietClock(cfg, s, e);
        var m := n - 1;
        assert forall t: nat :: LastTickIs(events, t, n) <==> LastTickIs(events, t, m);
      }
    }
  }

  lemma QuietClock(cfg: Config, s: Runtime, e: Event)
    requires !e.Tick?
    ensures Step(cfg, s, e).lastNow == s.lastNow
  {
  }

  // ----- calls

  /** The event puts a call to the service in flight. */
  predicate MakesCall(cfg: Config, s: Runtime, e: Event, service: Service) {
    !s.pending.Get(service).InFlight? && Step(cfg, s, e).pending.Get(service).InFlight?
  }

  /** A call in flight was held back by nothing, and its time is noted. */
  predicate Spaced(cfg: Config, s: Runtime, t: Runtime, now: real, service: Service) {
    if !s.pending.Get(service).InFlight? && t.pending.Get(service).InFlight?
    then now - s.lastCall.Get(service) >= cfg.serviceRetry && t.lastCall.Get(service) == now
    else t.lastCall.Get(service) == s.lastCall.Get(service)
  }

  lemma CallSpaced(cfg: Config, s: Runtime, service: Service, request: Request, ready: bool, now: real, other: Service)
    ensures var t := CallService(cfg, s, service, request, ready, now);
            Spaced(cfg, s, t, now, other) && (service != other ==> t.pending.Get(other) == s.pending.Get(other))
  {
  }

  lemma ReadySpaced(cfg: Config, s: Runtime, now: real, ready: PerService<bool>, service: Service)
    ensures Spaced(cfg, s, TickReady(cfg, s, now, ready), now, service)
  {
    hide BaseFailure, CallService;
    CallSpaced(cfg, s, ControlModeService, SetMode(Autonomous), ready.controlMode, now, service);
  }

  lemma ArmingSpaced(cfg: Config, s: Runtime, now: real, ready: PerService<bool>, service: Service)
    ensures Spaced(cfg, s, TickArming(cfg, s, now, ready), now, service)
  {
    hide BaseFailure, StandsReady, CallService;
    CallSpaced(cfg, s, EngageService, SetEngage(true), ready.engage, now, service);
  }

  lemma DisengageSpaced(cfg: Config, s: Runtime, now: real, ready: PerService<bool>, service: Service)
    ensures Spaced(cfg, s, Disengage(cfg, s, now, ready), now, service)
  {
    hide CallService;
    CallSpaced(cfg, s, EngageService, SetEngage(false), ready.engage, now, service);
    var engaged := CallService(cfg, s, EngageService, SetEngage(false), ready.engage, now);
    CallSpaced(cfg, engaged, ControlModeService, SetMode(Manual), ready.controlMode, now, service);
  }

  lemma TickSpaced(cfg: Config, s: Runtime, now: real, ready: PerService<bool>, service: Service)
    requires !WentBack(s, now)
    ensures Spaced(cfg, s, OnTick(cfg, s, now, ready), now, service)
  {
    hide Begun, Spaced, TickIdle, TickReady, TickArming, TickActive, TickStopping, TickFault;
    var begun := Begun(cfg, s, now);
    ReadySpaced(cfg, begun, now, ready, service);
    ArmingSpaced(cfg, begun, now, ready, service);
    StoppingSpaced(cfg, begun, now, ready, service);
    QuietSpaced(cfg, begun, now, service);
    ClockAside(cfg, s, OnTick(cfg, s, now, ready), now, service);
  }

  lemma ClockAside(cfg: Config, s: Runtime, t: Runtime, now: real, service: Service)
    ensures Spaced(cfg, s.(lastNow := now), t, now, service) ==> Spaced(cfg, s, t, now, service)
  {
  }

  lemma QuietSpaced(cfg: Config, s: Runtime, now: real, service: Service)
    ensures Spaced(cfg, s, TickIdle(cfg, s, now), now, service) && Spaced(cfg, s, TickActive(cfg, s, now), now, service)
    ensures Spaced(cfg, s, s, now, service)
  {
    hide BaseFailure, ActiveFailure;
  }

  lemma StoppingSpaced(cfg: Config, s: Runtime, now: real, ready: PerService<bool>, service: Service)
    ensures Spaced(cfg, s, TickStopping(cfg, s, now, ready), now, service)
    ensures Spaced(cfg, s, TickFault(cfg, s, now, ready), now, service)
  {
    hide ActiveFailure, Disengage, Stopped, StopConfirmed;
    DisengageSpaced(cfg, s, now, ready, service);
  }

  lemma StepSpaced(cfg: Config, s: Runtime, e: Event, service: Service)
    ensures var t := Step(cfg, s, e);
            && (MakesCall(cfg, s, e, service) ==>
                  e.Tick? && e.now - s.lastCall.Get(service) >= cfg.serviceRetry && t.lastCall.Get(service) == e.now)
            && (!MakesCall(cfg, s, e, service) ==> t.lastCall.Get(service) == s.lastCall.Get(service))
  {
    hide OnTick, MayReset;
    if e.Tick? {
      if WentBack(s, e.now) {
        RollbackExactly(cfg, s, e.now, e.ready);
      } else {
        TickSpaced(cfg, s, e.now, e.ready, service);
      }
    } else if e.ResetService? {
      ResetExactly(cfg, s, e.now);
    }
  }

  lemma {:induction false} LastCallGrows(cfg: Config, began: real, events: seq<Event>, i: nat, n: nat, service: Service)
    requires i <= n <= |events| && cfg.serviceRetry >= 0.0
    ensures Run(cfg, began, events, n).lastCall.Get(service) >= Run(cfg, began, events, i).lastCall.Get(service)
  {
    hide Step, MakesCall;
    if i < n {
      LastCallGrows(cfg, began, events, i, n - 1, service);
      StepSpaced(cfg, Run(cfg, began, events, n - 1), events[n - 1], service);
    }
  }

  /** Over any run, two calls to the same service are at least the retry period apart, across restarts and rollbacks. */
  lemma CallsAreSpaced(cfg: Config, began: real, events: seq<Event>, i: nat, k: nat, service: Service)
    requires i < k < |events| && cfg.serviceRetry >= 0.0
    requires MakesCall(cfg, Run(cfg, began, events, i), events[i], service)
    requires MakesCall(cfg, Run(cfg, began, events, k), events[k], service)
    ensures events[i].Tick? && events[k].Tick? && events[k].now - events[i].now >= cfg.serviceRetry
  {
    hide Run, MakesCall, PerService.Get;
    CallNoted(cfg, began, events, i, service);
    CallNoted(cfg, began, events, k, service);
    LastCallGrows(cfg, began, events, i + 1, k, service);
  }

  lemma CallNoted(cfg: Config, began: real, events: seq<Event>, i: nat, service: Service)
    requires i < |events| && MakesCall(cfg, Run(cfg, began, events, i), events[i], service)
    ensures events[i].Tick? && Run(cfg, began, events, i + 1).lastCall.Get(service) == events[i].now
    ensures events[i].now - Run(cfg, began, events, i).lastCall.Get(service) >= cfg.serviceRetry
  {
    hide Step, MakesCall, PerService.Get;
    StepSpaced(cfg, Run(cfg, began, events, i), events[i], service);
  }

  // ----- the permission to control

  /** Tick `k` armed and nothing restarted since. */
  ghost predicate ArmedAt(cfg: Config, began: real, events: seq<Event>, k: nat, n: nat)
    requires n <= |events|
  {
    k < n && ArmsAt(cfg, Run(cfg, began, events, k), events[k]) && SameEpoch(cfg, began, events, k, n)
  }

  /** Control is enabled exactly between an arming tick of the epoch and the end of the run in FINISHED or FAULT. */
  lemma EnabledExactly(cfg: Config, began: real, events: seq<Event>, n: nat)
    requires n <= |events|
    ensures var s := Run(cfg, began, events, n);
            ControlEnabled(s) <==> s.phase != Finished && s.phase != Fault && exists k: nat :: ArmedAt(cfg, began, events, k, n)
  {
    hide Step, ArmsAt, Restarts, Run;
    RunsKeep(cfg, began, events, n);
    if Run(cfg, began, events, n).armed {
      var k := ArmedSince(cfg, began, events, n);
      assert ArmedAt(cfg, began, events, k, n);
    }
    if k: nat :| ArmedAt(cfg, began, events, k, n) {
      StaysArmed(cfg, began, events, k, n);
    }
  }
}
