/**
  * The driving phase is reachable, so what is proved about it is about something; and so is the
  * one case that the slack in the staleness bound is for.
  */
module RaceRuntimeReach {
  import opened Basics
  import opened TimedInput
  import opened RaceRuntime
  import opened RaceRuntimeTheorems

  /** All messages are stamped `now`, but for odometry. */
  function StampOf(m: Message, now: real, odometry: real): real {
    if m.Odometry? then odometry else now
  }

  function Seen(m: Message, now: real, odometry: real): Timed<Message> {
    Timed(Some(m), now, StampOf(m, now, odometry), 1, 0, 0)
  }

  /** Everything healthy, standing still, in drive, under autonomous control, seen at `now`. */
  function Healthy(now: real, o: real): Inputs {
    [Seen(Localization(true), now, o), Seen(Odometry, now, o), Seen(Trajectory(2), now, o), UNSEEN,
     Seen(RawControl, now, o), Seen(FinalControl(0.0, 0.0), now, o), Seen(ModeReport(Autonomous), now, o),
     Seen(GearReport(Drive), now, o), Seen(Velocity(0.0), now, o), Seen(Steering, now, o), UNSEEN]
  }

  function Engaged(now: real, o: real): Inputs {
    Healthy(now, o)[ENGAGE := Seen(Engage(true), now, o)]
  }

  /** A stamp of odometry that is still fresh at `now`. */
  predicate StillFresh(cfg: Config, now: real, o: real) {
    0.0 <= o <= now && now - o <= cfg.localizationTimeout
  }

  function Reports(): seq<Message> {
    [Localization(true), Odometry, Trajectory(2), RawControl, FinalControl(0.0, 0.0), ModeReport(Autonomous),
     GearReport(Drive), Velocity(0.0), Steering]
  }

  lemma HealthyInputs(cfg: Config, i: Inputs, now: real, o: real)
    requires TimeoutsSet(cfg) && StillFresh(cfg, now, o) && (i == Healthy(now, o) || i == Engaged(now, o))
    ensures BaseFailure(cfg, i, now).None? && Armable(cfg, i, now)
  {
  }

  /** One event more. */
  lemma {:induction false} RunPrefix(cfg: Config, began: real, events: seq<Event>, more: seq<Event>, n: nat)
    requires n <= |events|
    ensures Run(cfg, began, events + more, n) == Run(cfg, began, events, n)
  {
    if n > 0 {
      RunPrefix(cfg, began, events, more, n - 1);
    }
  }

  lemma OneMore(cfg: Config, began: real, events: seq<Event>, e: Event)
    ensures Run(cfg, began, events + [e], |events| + 1) == Step(cfg, Run(cfg, began, events, |events|), e)
  {
    RunPrefix(cfg, began, events, [e], |events|);
  }

  lemma FirstReport(s: Runtime, m: Message, now: real, o: real)
    requires 0.0 <= o <= now && s.inputs[Topic(m)] == UNSEEN
    ensures OnMessage(s, m, now, StampOf(m, now, o)) == s.(inputs := s.inputs[Topic(m) := Seen(m, now, o)])
  {
  }

  /** After the first `k` reports. */
  function Reported(now: real, o: real, k: nat): Inputs
    requires k <= |Reports()|
  {
    if k == 0 then seq(TOPICS, _ => UNSEEN)
    else var m := Reports()[k - 1]; Reported(now, o, k - 1)[Topic(m) := Seen(m, now, o)]
  }

  lemma {:induction false} NotYetReported(now: real, o: real, k: nat, topic: nat)
    requires k <= |Reports()| && topic < TOPICS && forall j :: 0 <= j < k ==> Topic(Reports()[j]) != topic
    ensures Reported(now, o, k)[topic] == UNSEEN
  {
    if k > 0 {
      NotYetReported(now, o, k - 1, topic);
    }
  }

  lemma {:induction false} ReportedAt(now: real, o: real, k: nat, j: nat)
    requires j < k <= |Reports()|
    ensures Reported(now, o, k)[Topic(Reports()[j])] == Seen(Reports()[j], now, o)
  {
    if j < k - 1 {
      ReportedAt(now, o, k - 1, j);
      assert Topic(Reports()[j]) != Topic(Reports()[k - 1]) by { DistinctTopics(j, k - 1); }
    }
  }

  lemma DistinctTopics(j: nat, k: nat)
    requires j < k < |Reports()|
    ensures Topic(Reports()[j]) != Topic(Reports()[k])
  {
  }

  lemma AllReported(now: real, o: real)
    ensures Reported(now, o, |Reports()|) == Healthy(now, o)
  {
    forall j | 0 <= j < |Reports()| ensures Reported(now, o, 9)[Topic(Reports()[j])] == Seen(Reports()[j], now, o) {
      ReportedAt(now, o, 9, j);
    }
    NotYetReported(now, o, 9, ROUTE);
    NotYetReported(now, o, 9, ENGAGE);
    hide Reported;
    var i := Reported(now, o, 9);
    assert i[Topic(Reports()[0])] == Seen(Localization(true), now, o) && i[Topic(Reports()[1])] == Seen(Odometry, now, o);
    assert i[Topic(Reports()[2])] == Seen(Trajectory(2), now, o) && i[Topic(Reports()[3])] == Seen(RawControl, now, o);
    assert i[Topic(Reports()[4])] == Seen(FinalControl(0.0, 0.0), now, o);
    assert i[Topic(Reports()[5])] == Seen(ModeReport(Autonomous), now, o);
    assert i[Topic(Reports()[6])] == Seen(GearReport(Drive), now, o);
    assert i[Topic(Reports()[7])] == Seen(Velocity(0.0), now, o) && i[Topic(Reports()[8])] == Seen(Steering, now, o);
  }

  lemma {:induction false} FeedReports(cfg: Config, now: real, o: real, k: nat) returns (events: seq<Event>)
    requires 0.0 <= o <= now && k <= |Reports()|
    ensures Run(cfg, now, events, |events|) == Start(cfg, now).(inputs := Reported(now, o, k))
  {
    hide Reported, Topic;
    events := [];
    if k == 0 {
      assert Reported(now, o, 0) == seq(TOPICS, _ => UNSEEN) by { NothingReported(now, o); }
    } else {
      var before := FeedReports(cfg, now, o, k - 1);
      var m := Reports()[k - 1];
      forall j | 0 <= j < k - 1 ensures Topic(Reports()[j]) != Topic(m) { DistinctTopics(j, k - 1); }
      NotYetReported(now, o, k - 1, Topic(m));
      var e := Receive(m, now, StampOf(m, now, o));
      events := before + [e];
      OneMore(cfg, now, before, e);
      FirstReport(Run(cfg, now, before, |before|), m, now, o);
      NextReported(now, o, k);
    }
  }

  lemma NothingReported(now: real, o: real)
    ensures Reported(now, o, 0) == seq(TOPICS, _ => UNSEEN)
  {
  }

  lemma NextReported(now: real, o: real, k: nat)
    requires 0 < k <= |Reports()|
    ensures var m := Reports()[k - 1]; Reported(now, o, k) == Reported(now, o, k - 1)[Topic(m) := Seen(m, now, o)]
  {
  }

  const READY_BOTH := PerService(true, true)

  lemma BecomesReady(cfg: Config, s: Runtime, now: real, o: real)
    requires TimeoutsSet(cfg) && StillFresh(cfg, now, o) && s.inputs == Healthy(now, o)
    requires s.phase == Idle && s.startRequested && s.lastNow <= now
    ensures OnTick(cfg, s, now, READY_BOTH) == s.(phase := Ready, lastNow := now, reason := "READINESS_COMPLETE")
  {
    HealthyInputs(cfg, s.inputs, now, o);
    hide BaseFailure, Healthy;
  }

  lemma CallsForControl(cfg: Config, s: Runtime, now: real, o: real)
    requires TimeoutsSet(cfg) && StillFresh(cfg, now, o) && s.inputs == Healthy(now, o) && s.phase == Ready && s.lastNow <= now
    requires s.pending.controlMode == NoCall && now - s.lastCall.controlMode >= cfg.serviceRetry
    ensures var t := OnTick(cfg, s, now, READY_BOTH);
            && t.phase == Ready && t.inputs == s.inputs && t.armed == s.armed && t.lastNow == now && t.stopRequested == s.stopRequested
            && t.pending.controlMode == InFlight(SetMode(Autonomous)) && t.lastCall.controlMode == now
  {
    HealthyInputs(cfg, s.inputs, now, o);
    hide BaseFailure, Healthy;
  }

  lemma StartsArming(cfg: Config, s: Runtime, now: real, o: real)
    requires TimeoutsSet(cfg) && StillFresh(cfg, now, o) && s.inputs == Healthy(now, o) && s.phase == Ready && s.lastNow <= now
    requires s.pending.controlMode == Answered(SetMode(Autonomous), true) && s.lastCall.controlMode == now
    requires cfg.serviceRetry > 0.0
    ensures var t := OnTick(cfg, s, now, READY_BOTH);
            t.phase == Arming && t.inputs == s.inputs && t.armed == s.armed && t.lastNow == now && t.stopRequested == s.stopRequested
  {
    HealthyInputs(cfg, s.inputs, now, o);
    hide BaseFailure, Healthy;
  }

  lemma Arms(cfg: Config, s: Runtime, now: real, o: real)
    requires TimeoutsSet(cfg) && StillFresh(cfg, now, o) && s.inputs == Healthy(now, o) && s.phase == Arming && !s.armed && s.lastNow <= now
    ensures var t := OnTick(cfg, s, now, READY_BOTH);
            t.phase == Arming && t.inputs == s.inputs && t.armed && t.lastNow == now && t.stopRequested == s.stopRequested
  {
    HealthyInputs(cfg, s.inputs, now, o);
    assert Latest(s.inputs, ENGAGE).None?;
    hide BaseFailure, StandsReady, Healthy;
  }

  lemma Engages(cfg: Config, s: Runtime, now: real, o: real)
    requires TimeoutsSet(cfg) && StillFresh(cfg, now, o) && s.inputs == Engaged(now, o)
    requires s.phase == Arming && s.armed && s.lastNow <= now
    ensures var t := OnTick(cfg, s, now, READY_BOTH);
            t.phase == Active && t.inputs == s.inputs && t.lastNow == now && t.stopRequested == s.stopRequested
  {
    HealthyInputs(cfg, s.inputs, now, o);
    assert Latest(s.inputs, ENGAGE) == Some(Engage(true));
    hide BaseFailure, StandsReady, Healthy;
  }

  lemma StaysActive(cfg: Config, s: Runtime, now: real, o: real)
    requires TimeoutsSet(cfg) && StillFresh(cfg, now, o) && s.inputs == Engaged(now, o)
    requires s.phase == Active && !s.stopRequested && s.lastNow <= now
    ensures OnTick(cfg, s, now, READY_BOTH) == s.(lastNow := now)
  {
    HealthyInputs(cfg, s.inputs, now, o);
    assert Latest(s.inputs, ROUTE).None?;
    hide BaseFailure, StandsReady, Healthy;
  }

  /**
    * With a positive retry period and timeouts that are not negative, some run reaches `Active`:
    * reports, a start, a granted call, arming, engagement.
    */
  lemma ActiveWith(cfg: Config, now: real, o: real) returns (events: seq<Event>)
    requires TimeoutsSet(cfg) && StillFresh(cfg, now, o) && now >= cfg.serviceRetry > 0.0
    ensures var s := Run(cfg, now, events, |events|);
            s.phase == Active && s.inputs == Engaged(now, o) && !s.stopRequested && s.lastNow == now
  {
    hide Run, Healthy, OnTick, Reported, Topic;
    var tick := Tick(now, READY_BOTH);
    var reply, engage := Reply(ControlModeService, true), Receive(Engage(true), now, now);
    events := FeedReports(cfg, now, o, |Reports()|);
    AllReported(now, o);
    OneMore(cfg, now, events, StartService);
    events := events + [StartService];
    BecomesReady(cfg, Run(cfg, now, events, |events|), now, o);
    OneMore(cfg, now, events, tick);
    events := events + [tick];
    CallsForControl(cfg, Run(cfg, now, events, |events|), now, o);
    OneMore(cfg, now, events, tick);
    events := events + [tick];
    OneMore(cfg, now, events, reply);
    events := events + [reply];
    StartsArming(cfg, Run(cfg, now, events, |events|), now, o);
    OneMore(cfg, now, events, tick);
    events := events + [tick];
    Arms(cfg, Run(cfg, now, events, |events|), now, o);
    OneMore(cfg, now, events, tick);
    events := events + [tick];
    EngageUnseen(now, o);
    FirstReport(Run(cfg, now, events, |events|), Engage(true), now, o);
    OneMore(cfg, now, events, engage);
    events := events + [engage];
    Engages(cfg, Run(cfg, now, events, |events|), now, o);
    OneMore(cfg, now, events, tick);
    events := events + [tick];
  }

  lemma EngageUnseen(now: real, o: real)
    ensures Healthy(now, o)[ENGAGE] == UNSEEN && Topic(Engage(true)) == ENGAGE
  {
  }

  lemma ActiveIsReachable(cfg: Config, now: real) returns (events: seq<Event>)
    requires TimeoutsSet(cfg) && now >= cfg.serviceRetry > 0.0
    ensures Run(cfg, now, events, |events|).phase == Active
  {
    hide Run;
    events := ActiveWith(cfg, now, now);
  }

  // ----- the slack of the staleness bound

  lemma CreepsBack(s: Runtime, now: real, late: real, o: real)
    requires s.inputs == Engaged(now, o) && STAMP_SLACK <= o <= now <= late
    ensures var t := OnMessage(s, Odometry, late, o - STAMP_SLACK);
            t.phase == s.phase && t.inputs[ODOMETRY].source == o - STAMP_SLACK
  {
  }

  /**
    * In an active run that satisfies every premise of the staleness bound, odometry is older
    * than its timeout and the period, because its last message was stamped before the one kept.
    */
  lemma SlackIsNeeded(cfg: Config, now: real, period: real) returns (events: seq<Event>, first: nat)
    requires TimeoutsSet(cfg) && now >= cfg.serviceRetry > 0.0 && period >= 0.0
    requires now >= cfg.localizationTimeout + STAMP_SLACK
    ensures first + 2 == |events| && events[first] == Tick(now, READY_BOTH) && NoTick(events, first + 1, |events|)
    ensures Run(cfg, now, events, first).phase == Active && Run(cfg, now, events, |events|).phase == Active
    ensures SameEpoch(cfg, now, events, first, |events|) && ClockRuns(events, first, |events|, now, now + period)
    ensures now + period - Run(cfg, now, events, |events|).inputs[ODOMETRY].source > cfg.localizationTimeout + period
  {
    hide Run, Healthy, OnTick, Topic, OnMessage;
    var o := now - cfg.localizationTimeout;
    var tick, late := Tick(now, READY_BOTH), Receive(Odometry, now + period, o - STAMP_SLACK);
    var before := ActiveWith(cfg, now, o);
    first := |before|;
    var s := Run(cfg, now, before, first);
    StaysActive(cfg, s, now, o);
    OneMore(cfg, now, before, tick);
    var ticked := before + [tick];
    var t := Run(cfg, now, ticked, first + 1);
    OneMore(cfg, now, ticked, late);
    CreepsBack(t, now, now + period, o);
    events := ticked + [late];
    RunPrefix(cfg, now, before, [tick], first);
    RunPrefix(cfg, now, ticked, [late], first);
    RunPrefix(cfg, now, ticked, [late], first + 1);
    assert !Restarts(cfg, s, tick) && !Restarts(cfg, t, late);
  }
}
