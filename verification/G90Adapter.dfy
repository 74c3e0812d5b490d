/** The G90 adapter: the layer between NMEA sentences and published fixes, above the gate. */
module G90Adapter {
  import opened Basics
  import opened GnssGate

  /** The names of the supported map projectors are those of the map message package. */
  datatype AdapterConfig = AdapterConfig(
    outputEnabled: bool, allowStatuslessHdt: bool, yawStddev: Double, supportedProjectors: seq<string>, gate: GateConfig)

  /** A parsed sentence. `Malformed` carries whether the sentence reads as a GGA. */
  datatype Parsed =
    | Hdt(heading: real)
    | Ths(headingOf: Option<real>, mode: char)
    | GstSentence(gst: Gst)
    | GstUnavailable
    | GgaSentence(gga: Gga)
    | OtherSentence
    | Malformed(isGga: bool)

  function Lower(c: char): char {
    if 'A' <= c <= 'Z' then (c as int + 32) as char else c
  }

  /** Why no fix may be accepted at all; `tfReady` is the answer of the transform lookup. */
  function Prerequisite(cfg: AdapterConfig, projector: Option<string>, tfReady: bool): Option<string> {
    if !cfg.outputEnabled then Some("localization_output_disabled")
    else if cfg.yawStddev.NotFinite? || cfg.yawStddev.value <= 0.0 then Some("yaw_covariance_unconfigured")
    else if projector.None? then Some("map_projector_missing")
    else if projector.value == "Local" then Some("map_projector_local")
    else if projector.value !in cfg.supportedProjectors then Some("map_projector_unsupported")
    else if !tfReady then Some("base_transform_missing")
    else None
  }

  datatype Adapter = Adapter(
    gate: Gate, receiver: Option<Decision>, effective: Option<Decision>, projector: Option<string>,
    lastGgaStamp: Option<real>, lastHeadingStamp: Option<real>, lastGstStamp: Option<real>,
    invalidSentences: nat, ignoredSentences: nat, published: seq<Decision>)

  const WAITING := Adapter(CLOSED, None, None, None, None, None, None, 0, 0, [])

  function RuntimeRejection(d: Decision, reason: string): Decision {
    d.(accepted := false, reason := reason, orientation := None, variances := None)
  }

  function Effective(cfg: AdapterConfig, s: Adapter, d: Decision, tfReady: bool): Decision {
    var reason := Prerequisite(cfg, s.projector, tfReady);
    if d.accepted && reason.Some? then RuntimeRejection(d, reason.value) else d
  }

  function Publish(s: Adapter, effective: Decision): Adapter {
    s.(effective := Some(effective), published := s.published + [effective])
  }

  function PublishReceiver(cfg: AdapterConfig, s: Adapter, d: Decision, tfReady: bool): Adapter {
    Publish(s.(receiver := Some(d)), Effective(cfg, s, d, tfReady))
  }

  // ----- sentences

  /** The gate event a sentence becomes. */
  function ToGate(cfg: AdapterConfig, parsed: Parsed, stamp: real): Option<GateEvent> {
    match parsed
    case Hdt(heading) =>
      Some(if cfg.allowStatuslessHdt then HeadingAccepted(heading, stamp) else HeadingRejected("heading_status_unavailable"))
    case Ths(heading, mode) =>
      Some(if mode == 'A' && heading.Some? then HeadingAccepted(heading.value, stamp)
           else HeadingRejected("heading_mode_" + [Lower(mode)]))
    case GstSentence(gst) => Some(GstAccepted(gst, stamp))
    case GstUnavailable => Some(GstRejected)
    case GgaSentence(gga) => Some(GgaReceived(gga, stamp))
    case OtherSentence => None
    case Malformed(isGga) => if isGga then Some(GgaRejected(stamp, "invalid_gga")) else None
  }

  function Noted(s: Adapter, parsed: Parsed, stamp: real): Adapter {
    match parsed
    case Hdt(_) => s.(lastHeadingStamp := Some(stamp))
    case Ths(_, _) => s.(lastHeadingStamp := Some(stamp))
    case GstSentence(_) => s.(lastGstStamp := Some(stamp))
    case GstUnavailable => s.(lastGstStamp := None)
    case GgaSentence(_) => s.(lastGgaStamp := Some(stamp))
    case OtherSentence => s.(ignoredSentences := s.ignoredSentences + 1)
    case Malformed(isGga) =>
      s.(invalidSentences := s.invalidSentences + 1, lastGgaStamp := if isGga then Some(stamp) else s.lastGgaStamp)
  }

  /** An event at the gate, and the decision it produces, if any, on the wire. */
  function ThroughGate(cfg: AdapterConfig, s: Adapter, e: GateEvent, tfReady: bool): Adapter {
    var after := s.(gate := Step(cfg.gate, s.gate, e));
    match DecisionOf(cfg.gate, s.gate, e)
    case None => after
    case Some(d) => PublishReceiver(cfg, after, d, tfReady)
  }

  function OnSentence(cfg: AdapterConfig, s: Adapter, parsed: Parsed, stamp: real, tfReady: bool): Adapter {
    var noted := Noted(s, parsed, stamp);
    match ToGate(cfg, parsed, stamp)
    case None => noted
    case Some(e) => ThroughGate(cfg, noted, e, tfReady)
  }

  // ----- the watchdog

  function OnWatchdog(cfg: AdapterConfig, s: Adapter, now: real, tfReady: bool): Adapter {
    if DecisionOf(cfg.gate, s.gate, Expire(now)).Some? then ThroughGate(cfg, s, Expire(now), tfReady)
    else if s.effective.Some? && s.effective.value.accepted then
      match Prerequisite(cfg, s.projector, tfReady)
      case None => s
      case Some(reason) => Publish(s, RuntimeRejection(s.effective.value.(stamp := now), reason))
    else s
  }

  // ----- runs

  datatype Event =
    | Sentence(parsed: Parsed, stamp: real, tfReady: bool)
    | Projector(kind: string)
    | Watchdog(now: real, tfReady: bool)

  function AdapterStep(cfg: AdapterConfig, s: Adapter, e: Event): Adapter {
    match e
    case Sentence(parsed, stamp, tfReady) => OnSentence(cfg, s, parsed, stamp, tfReady)
    case Projector(kind) => s.(projector := Some(kind))
    case Watchdog(now, tfReady) => OnWatchdog(cfg, s, now, tfReady)
  }

  function AdapterRun(cfg: AdapterConfig, events: seq<Event>): Adapter {
    if events == [] then WAITING
    else AdapterStep(cfg, AdapterRun(cfg, events[..|events| - 1]), events[|events| - 1])
  }

  /** The events a run puts to its gate. */
  function GateTrace(cfg: AdapterConfig, events: seq<Event>): seq<GateEvent> {
    if events == [] then []
    else GateTrace(cfg, events[..|events| - 1]) + GateEvents(cfg, events[|events| - 1])
  }

  function GateEvents(cfg: AdapterConfig, e: Event): seq<GateEvent> {
    match e
    case Sentence(parsed, stamp, _) =>
      (match ToGate(cfg, parsed, stamp)
       case None => []
       case Some(g) => [g])
    case Projector(_) => []
    case Watchdog(now, _) => [Expire(now)]
  }

  lemma StepAtGate(cfg: AdapterConfig, s: Adapter, e: Event)
    ensures var events := GateEvents(cfg, e);
            AdapterStep(cfg, s, e).gate == if events == [] then s.gate else Step(cfg.gate, s.gate, events[0])
    ensures |GateEvents(cfg, e)| <= 1
  {
    StepDecides(cfg.gate, s.gate, if e.Watchdog? then Expire(e.now) else GstRejected);
    if e.Watchdog? {
      QuietExpiry(cfg.gate, s.gate, e.now);
    }
  }

  lemma QuietExpiry(cfg: GateConfig, g: Gate, now: real)
    ensures DecisionOf(cfg, g, Expire(now)).None? ==> Step(cfg, g, Expire(now)) == g
  {
  }

  /** The gate inside the adapter runs on exactly this trace. */
  lemma {:induction false} GateFollows(cfg: AdapterConfig, events: seq<Event>)
    ensures AdapterRun(cfg, events).gate == Run(cfg.gate, GateTrace(cfg, events))
  {
    hide AdapterStep, Step, GateEvents;
    if events != [] {
      var n := |events| - 1;
      GateFollows(cfg, events[..n]);
      StepAtGate(cfg, AdapterRun(cfg, events[..n]), events[n]);
      var before, more := GateTrace(cfg, events[..n]), GateEvents(cfg, events[n]);
      if more == [] {
        assert before + more == before;
      } else {
        assert more == [more[0]];
        assert (before + more)[..|before| + |more| - 1] == before;
      }
    }
  }

  // ----- the invariant

  /** An accepted fix on the wire is the one the gate stands by, and it is the last thing published. */
  predicate Invariant(s: Adapter) {
    && (s.effective.None? <==> s.published == [])
    && (s.effective.Some? ==> s.published[|s.published| - 1] == s.effective.value)
    && (s.effective.Some? && s.effective.value.accepted ==>
          && s.gate.lastAccepted && s.gate.lastGgaStamp == Some(s.effective.value.stamp)
          && s.receiver == s.effective && s.effective.value.orientation.Some? && s.effective.value.variances.Some?)
  }

  lemma ThroughKeeps(cfg: AdapterConfig, s: Adapter, e: GateEvent, tfReady: bool)
    requires Invariant(s)
    ensures Invariant(ThroughGate(cfg, s, e, tfReady))
  {
    hide Step, Prerequisite;
    StepDecides(cfg.gate, s.gate, e);
    AcceptedComplete(cfg.gate, s.gate, e);
    hide DecisionOf;
  }

  lemma AcceptedComplete(cfg: GateConfig, g: Gate, e: GateEvent)
    ensures var d := DecisionOf(cfg, g, e);
            d.Some? && d.value.accepted ==>
              d.value.orientation.Some? && d.value.variances.Some? && e.GgaReceived? && d.value.stamp == e.stamp
  {
  }

  lemma StepKeeps(cfg: AdapterConfig, s: Adapter, e: Event)
    requires Invariant(s)
    ensures Invariant(AdapterStep(cfg, s, e))
  {
    hide ThroughGate, Prerequisite, DecisionOf;
    match e
    case Sentence(parsed, stamp, tfReady) =>
      var event := ToGate(cfg, parsed, stamp);
      if event.Some? { ThroughKeeps(cfg, Noted(s, parsed, stamp), event.value, tfReady); }
    case Projector(_) =>
    case Watchdog(now, tfReady) => ThroughKeeps(cfg, s, Expire(now), tfReady);
  }

  lemma {:induction false} RunsKeep(cfg: AdapterConfig, events: seq<Event>)
    ensures Invariant(AdapterRun(cfg, events))
  {
    hide AdapterStep, Invariant;
    if events == [] {
      assert Invariant(WAITING) by { WaitingKeeps(); }
    } else {
      RunsKeep(cfg, events[..|events| - 1]);
      StepKeeps(cfg, AdapterRun(cfg, events[..|events| - 1]), events[|events| - 1]);
    }
  }

  lemma WaitingKeeps()
    ensures Invariant(WAITING)
  {
  }

  predicate Accepting(s: Adapter) {
    s.effective.Some? && s.effective.value.accepted
  }

  // ----- what the sentences of a run say

  predicate HeadingSentence(e: Event) {
    e.Sentence? && (e.parsed.Hdt? || e.parsed.Ths?)
  }

  predicate GstEvidence(e: Event) {
    e.Sentence? && (e.parsed.GstSentence? || e.parsed.GstUnavailable?)
  }

  predicate LatestHeadingSentence(events: seq<Event>, k: nat) {
    k < |events| && HeadingSentence(events[k]) && forall j :: k < j < |events| ==> !HeadingSentence(events[j])
  }

  predicate LatestGstSentence(events: seq<Event>, k: nat) {
    k < |events| && GstEvidence(events[k]) && forall j :: k < j < |events| ==> !GstEvidence(events[j])
  }

  predicate LatestProjector(events: seq<Event>, k: nat) {
    k < |events| && events[k].Projector? && forall j :: k < j < |events| ==> !events[j].Projector?
  }

  /** The heading a sentence vouches for: an HDT only if sentences without a status are allowed, a THS only in mode A. */
  function HeadingIn(cfg: AdapterConfig, parsed: Parsed): Option<real> {
    match parsed
    case Hdt(heading) => if cfg.allowStatuslessHdt then Some(heading) else None
    case Ths(heading, mode) => if mode == 'A' then heading else None
    case _ => None
  }

  /** Why a heading sentence vouches for no heading: an HDT has no status, a THS is in another mode or empty. */
  function HeadingFault(parsed: Parsed): string {
    match parsed
    case Ths(_, mode) => "heading_mode_" + [if 'A' <= mode <= 'Z' then mode + ('a' - 'A') else mode]
    case _ => "heading_status_unavailable"
  }

  /** The latest heading sentence vouches for this heading. */
  ghost predicate HeadingKnown(cfg: AdapterConfig, events: seq<Event>, heading: real, stamp: real) {
    exists k: nat :: LatestHeadingSentence(events, k) && HeadingIn(cfg, events[k].parsed) == Some(heading) && events[k].stamp == stamp
  }

  /** The latest GST sentence carries these deviations. */
  ghost predicate GstKnown(events: seq<Event>, gst: Gst, stamp: real) {
    exists k: nat :: LatestGstSentence(events, k) && events[k].parsed == GstSentence(gst) && events[k].stamp == stamp
  }

  /** Output is on, the yaw deviation configured, the transform there, and the latest projector a supported one that is not local. */
  ghost predicate OutputReady(cfg: AdapterConfig, events: seq<Event>, tfReady: bool) {
    && cfg.outputEnabled && cfg.yawStddev.Finite? && cfg.yawStddev.value > 0.0 && tfReady
    && exists k: nat :: LatestProjector(events, k) && events[k].kind != "Local" && events[k].kind in cfg.supportedProjectors
  }

  /** What withholds an accepted fix: the first of these that does not hold. */
  ghost predicate WithheldFor(cfg: AdapterConfig, events: seq<Event>, tfReady: bool, reason: string) {
    if !cfg.outputEnabled then reason == "localization_output_disabled"
    else if cfg.yawStddev.NotFinite? || cfg.yawStddev.value <= 0.0 then reason == "yaw_covariance_unconfigured"
    else if forall k: nat :: !LatestProjector(events, k) then reason == "map_projector_missing"
    else if exists k: nat :: LatestProjector(events, k) && events[k].kind == "Local" then reason == "map_projector_local"
    else if exists k: nat :: LatestProjector(events, k) && events[k].kind !in cfg.supportedProjectors
    then reason == "map_projector_unsupported"
    else !tfReady && reason == "base_transform_missing"
  }

  lemma WithheldExactly(cfg: AdapterConfig, events: seq<Event>, tfReady: bool)
    ensures var withheld := Prerequisite(cfg, AdapterRun(cfg, events).projector, tfReady);
            withheld.Some? ==> WithheldFor(cfg, events, tfReady, withheld.value)
  {
    hide AdapterRun;
    ProjectorKept(cfg, events);
  }

  /** Why a GGA sentence puts no accepted fix on the wire: the first thing that is missing, stale or withheld. */
  ghost predicate SentenceRefusedFor(cfg: AdapterConfig, events: seq<Event>, gga: Gga, at: real, tfReady: bool, reason: string) {
    if gga.quality != 4 && gga.quality != 5 then reason == QualityText(gga.quality)
    else if gga.latitude.None? || gga.longitude.None? || gga.altitude.None? then reason == "position_missing"
    else if forall k: nat :: !LatestHeadingSentence(events, k) then reason == "heading_missing"
    else if forall heading, stamp :: !HeadingKnown(cfg, events, heading, stamp) then
      forall k: nat :: LatestHeadingSentence(events, k) ==> reason == HeadingFault(events[k].parsed)
    else if forall heading, stamp :: HeadingKnown(cfg, events, heading, stamp) ==> !InWindow(stamp, at, cfg.gate.headingMaxAge)
    then reason == "heading_stale"
    else if forall gst, stamp :: !GstKnown(events, gst, stamp) then reason == "covariance_missing"
    else if forall gst, stamp :: GstKnown(events, gst, stamp) ==> !InWindow(stamp, at, cfg.gate.gstMaxAge)
    then reason == "covariance_stale"
    else WithheldFor(cfg, events, tfReady, reason)
  }

  lemma HeadingRefusal(cfg: AdapterConfig, events: seq<Event>)
    ensures var g := AdapterRun(cfg, events).gate;
            && (g.orientation.None? <==> forall heading, stamp :: !HeadingKnown(cfg, events, heading, stamp))
            && ((forall k: nat :: !LatestHeadingSentence(events, k)) ==> g.orientation.None?)
            && (g.orientation.None? ==>
                  if forall k: nat :: !LatestHeadingSentence(events, k) then g.headingReason == "heading_missing"
                  else forall k: nat :: LatestHeadingSentence(events, k) ==> g.headingReason == HeadingFault(events[k].parsed))
            && forall heading, stamp :: HeadingKnown(cfg, events, heading, stamp) ==>
                 g.orientation.Some? && g.orientation.value.stamp == stamp
  {
    hide AdapterRun, HeadingIn, HeadingFault;
    HeadingKept(cfg, events);
    HeadingReady(cfg, events, 0.0);
    if AdapterRun(cfg, events).gate.orientation.Some? {
      var k: nat :| LatestHeadingSentence(events, k);
      assert HeadingKnown(cfg, events, HeadingIn(cfg, events[k].parsed).value, events[k].stamp);
    }
  }

  lemma GstRefusal(cfg: AdapterConfig, events: seq<Event>)
    ensures var g := AdapterRun(cfg, events).gate;
            && (g.gst.None? || g.gstStamp.None? <==> forall gst, stamp :: !GstKnown(events, gst, stamp))
            && forall gst, stamp :: GstKnown(events, gst, stamp) ==> g.gstStamp == Some(stamp)
  {
    hide AdapterRun;
    GstKept(cfg, events);
    if AdapterRun(cfg, events).gate.gst.Some? {
      var k: nat :| LatestGstSentence(events, k);
      assert GstKnown(events, events[k].parsed.gst, events[k].stamp);
    }
  }

  lemma GateRefusal(cfg: AdapterConfig, events: seq<Event>, gga: Gga, at: real, tfReady: bool)
    ensures var refused := Rejection(cfg.gate, AdapterRun(cfg, events).gate, gga, at);
            refused.Some? ==> SentenceRefusedFor(cfg, events, gga, at, tfReady, refused.value)
  {
    hide AdapterRun, HeadingKnown, GstKnown, WithheldFor, HeadingFault, QualityText;
    HeadingRefusal(cfg, events);
    GstRefusal(cfg, events);
    HeadingReady(cfg, events, at);
    GstReady(cfg, events, at);
  }

  lemma NothingRefused(cfg: AdapterConfig, events: seq<Event>, gga: Gga, at: real, tfReady: bool, reason: string)
    requires Rejection(cfg.gate, AdapterRun(cfg, events).gate, gga, at).None? && WithheldFor(cfg, events, tfReady, reason)
    ensures SentenceRefusedFor(cfg, events, gga, at, tfReady, reason)
  {
    hide AdapterRun, HeadingKnown, GstKnown, WithheldFor, HeadingFault, QualityText;
    HeadingRefusal(cfg, events);
    GstRefusal(cfg, events);
    HeadingReady(cfg, events, at);
    GstReady(cfg, events, at);
  }

  /** The reason published with a GGA sentence that is no accepted fix. */
  lemma SentenceRefusedExactly(cfg: AdapterConfig, events: seq<Event>, gga: Gga, stamp: real, tfReady: bool)
    ensures var s := AdapterRun(cfg, events);
            var t := AdapterStep(cfg, s, Sentence(GgaSentence(gga), stamp, tfReady));
            t.effective.Some? && (!Accepting(t) ==>
              SentenceRefusedFor(cfg, events, gga, stamp, tfReady, t.effective.value.reason))
  {
    hide AdapterRun, Prerequisite, Rejection, SentenceRefusedFor, WithheldFor, QualityText;
    GateRefusal(cfg, events, gga, stamp, tfReady);
    WithheldExactly(cfg, events, tfReady);
    var withheld := Prerequisite(cfg, AdapterRun(cfg, events).projector, tfReady);
    if withheld.Some? && Rejection(cfg.gate, AdapterRun(cfg, events).gate, gga, stamp).None? {
      NothingRefused(cfg, events, gga, stamp, tfReady, withheld.value);
    }
  }

  /** `t` differs from `s` in the gate and in what was decided and published. */
  predicate SameNotes(s: Adapter, t: Adapter) {
    && t.projector == s.projector && t.lastGgaStamp == s.lastGgaStamp && t.lastHeadingStamp == s.lastHeadingStamp
    && t.lastGstStamp == s.lastGstStamp && t.invalidSentences == s.invalidSentences
    && t.ignoredSentences == s.ignoredSentences
  }

  lemma ThroughGateSteps(cfg: AdapterConfig, s: Adapter, e: GateEvent, tfReady: bool)
    ensures var t := ThroughGate(cfg, s, e, tfReady); t.gate == GnssGate.Step(cfg.gate, s.gate, e) && SameNotes(s, t)
  {
    hide GnssGate.Step, DecisionOf, Effective;
  }

  /** A step takes its event, if it makes one, through the gate, and notes the sentence. */
  lemma StepSteps(cfg: AdapterConfig, s: Adapter, e: Event)
    ensures var t := AdapterStep(cfg, s, e);
            match e
            case Sentence(parsed, stamp, _) =>
              && SameNotes(Noted(s, parsed, stamp), t)
              && t.gate == (match ToGate(cfg, parsed, stamp)
                            case None => s.gate
                            case Some(g) => GnssGate.Step(cfg.gate, s.gate, g))
            case Projector(kind) => t == s.(projector := Some(kind))
            case Watchdog(now, _) => SameNotes(s, t) && t.gate == GnssGate.Step(cfg.gate, s.gate, Expire(now))
  {
    hide ToGate, GnssGate.Step, DecisionOf, ThroughGate, Prerequisite, SameNotes, Noted;
    match e
    case Sentence(parsed, stamp, tfReady) =>
      var noted := Noted(s, parsed, stamp);
      NotedAside(s, parsed, stamp);
      var g := ToGate(cfg, parsed, stamp);
      if g.Some? { ThroughGateSteps(cfg, noted, g.value, tfReady); } else { SameAsItself(noted); }
    case Projector(_) =>
    case Watchdog(now, tfReady) =>
      QuietExpiry(cfg.gate, s.gate, now);
      ThroughGateSteps(cfg, s, Expire(now), tfReady);
      SameAsItself(s);
      if s.effective.Some? {
        forall reason: string { PublishAside(s, RuntimeRejection(s.effective.value.(stamp := now), reason)); }
      }
  }

  lemma NotedAside(s: Adapter, parsed: Parsed, stamp: real)
    ensures Noted(s, parsed, stamp).gate == s.gate
  {
  }

  lemma SameAsItself(s: Adapter)
    ensures SameNotes(s, s)
  {
  }

  lemma PublishAside(s: Adapter, d: Decision)
    ensures SameNotes(s, Publish(s, d)) && Publish(s, d).gate == s.gate
  {
  }

  lemma NextHeading(cfg: AdapterConfig, s: Adapter, e: Event)
    ensures var g := AdapterStep(cfg, s, e).gate;
            if HeadingSentence(e) then
              match HeadingIn(cfg, e.parsed)
              case Some(heading) => g.orientation == Some(Orientation(e.stamp, cfg.gate.yawOf(heading)))
              case None => g.orientation.None? && g.headingReason == HeadingFault(e.parsed)
            else g.orientation == s.gate.orientation && g.headingReason == s.gate.headingReason
  {
    hide AdapterStep, Rejection, Expiry, SameNotes;
    StepSteps(cfg, s, e);
  }

  lemma NextGst(cfg: AdapterConfig, s: Adapter, e: Event)
    ensures var g := AdapterStep(cfg, s, e).gate;
            if GstEvidence(e) then
              if e.parsed.GstSentence? then g.gst == Some(e.parsed.gst) && g.gstStamp == Some(e.stamp)
              else g.gst.None? && g.gstStamp.None?
            else g.gst == s.gate.gst && g.gstStamp == s.gate.gstStamp
  {
    hide AdapterStep, Rejection, Expiry, SameNotes;
    StepSteps(cfg, s, e);
  }

  lemma NextProjector(cfg: AdapterConfig, s: Adapter, e: Event)
    ensures AdapterStep(cfg, s, e).projector == if e.Projector? then Some(e.kind) else s.projector
  {
    hide AdapterStep, ToGate, GnssGate.Step;
    StepSteps(cfg, s, e);
  }

  /** What the gate keeps of headings is what the latest heading sentence said. */
  lemma {:induction false} HeadingKept(cfg: AdapterConfig, events: seq<Event>)
    ensures var g := AdapterRun(cfg, events).gate;
            && (forall k: nat :: LatestHeadingSentence(events, k) ==>
                  match HeadingIn(cfg, events[k].parsed)
                  case Some(heading) => g.orientation == Some(Orientation(events[k].stamp, cfg.gate.yawOf(heading)))
                  case None => g.orientation.None? && g.headingReason == HeadingFault(events[k].parsed))
            && ((forall k: nat :: !LatestHeadingSentence(events, k)) ==>
                  g.orientation.None? && g.headingReason == "heading_missing")
  {
    hide AdapterStep, HeadingIn, HeadingFault;
    if events != [] {
      var n := |events| - 1;
      var before, e := events[..n], events[n];
      HeadingKept(cfg, before);
      NextHeading(cfg, AdapterRun(cfg, before), e);
      if HeadingSentence(e) {
        assert LatestHeadingSentence(events, n) && forall k: nat :: LatestHeadingSentence(events, k) ==> k == n;
      } else {
        assert forall k: nat :: LatestHeadingSentence(events, k) <==> LatestHeadingSentence(before, k);
      }
    }
  }

  /** The projector kept is the latest one. */
  lemma {:induction false} ProjectorKept(cfg: AdapterConfig, events: seq<Event>)
    ensures var s := AdapterRun(cfg, events);
            && (forall k: nat :: LatestProjector(events, k) ==> s.projector == Some(events[k].kind))
            && ((forall k: nat :: !LatestProjector(events, k)) ==> s.projector.None?)
  {
    hide AdapterStep;
    if events != [] {
      var n := |events| - 1;
      var before, e := events[..n], events[n];
      ProjectorKept(cfg, before);
      NextProjector(cfg, AdapterRun(cfg, before), e);
      if e.Projector? {
        assert LatestProjector(events, n) && forall k: nat :: LatestProjector(events, k) ==> k == n;
      } else {
        assert forall k: nat :: LatestProjector(events, k) <==> LatestProjector(before, k);
      }
    }
  }

  lemma {:induction false} GstKept(cfg: AdapterConfig, events: seq<Event>)
    ensures var s := AdapterRun(cfg, events);
            && (forall k: nat :: LatestGstSentence(events, k) ==>
                  if events[k].parsed.GstSentence?
                  then s.gate.gst == Some(events[k].parsed.gst) && s.gate.gstStamp == Some(events[k].stamp)
                  else s.gate.gst.None? && s.gate.gstStamp.None?)
            && ((forall k: nat :: !LatestGstSentence(events, k)) ==> s.gate.gst.None? && s.gate.gstStamp.None?)
  {
    hide AdapterStep;
    if events != [] {
      var n := |events| - 1;
      var before, e := events[..n], events[n];
      GstKept(cfg, before);
      NextGst(cfg, AdapterRun(cfg, before), e);
      if GstEvidence(e) {
        assert LatestGstSentence(events, n) && forall k: nat :: LatestGstSentence(events, k) ==> k == n;
      } else {
        assert forall k: nat :: LatestGstSentence(events, k) <==> LatestGstSentence(before, k);
      }
    }
  }

  lemma ReadyExactly(cfg: AdapterConfig, events: seq<Event>, tfReady: bool)
    ensures Prerequisite(cfg, AdapterRun(cfg, events).projector, tfReady).None? <==> OutputReady(cfg, events, tfReady)
  {
    hide AdapterRun;
    ProjectorKept(cfg, events);
  }

  /** What the receiver must say for a GGA sentence to be a fix. */
  ghost predicate EvidenceReady(cfg: AdapterConfig, events: seq<Event>, gga: Gga, at: real) {
    && (gga.quality == 4 || gga.quality == 5) && gga.latitude.Some? && gga.longitude.Some? && gga.altitude.Some?
    && (exists heading, stamp :: HeadingKnown(cfg, events, heading, stamp) && InWindow(stamp, at, cfg.gate.headingMaxAge))
    && (exists gst, stamp :: GstKnown(events, gst, stamp) && InWindow(stamp, at, cfg.gate.gstMaxAge))
  }

  /** What makes a GGA sentence a fix that may be accepted. */
  ghost predicate FixReady(cfg: AdapterConfig, events: seq<Event>, gga: Gga, at: real, tfReady: bool) {
    EvidenceReady(cfg, events, gga, at) && OutputReady(cfg, events, tfReady)
  }

  lemma HeadingReady(cfg: AdapterConfig, events: seq<Event>, at: real)
    ensures var o := AdapterRun(cfg, events).gate.orientation;
            && (o.Some? && IsFresh(o.value.stamp, at, cfg.gate.headingMaxAge) <==>
                  exists heading, stamp :: HeadingKnown(cfg, events, heading, stamp) && InWindow(stamp, at, cfg.gate.headingMaxAge))
            && forall heading, stamp :: HeadingKnown(cfg, events, heading, stamp) ==>
                 o == Some(Orientation(stamp, cfg.gate.yawOf(heading)))
  {
    hide AdapterRun, HeadingIn;
    HeadingKept(cfg, events);
    var o := AdapterRun(cfg, events).gate.orientation;
    if o.Some? {
      var k: nat :| LatestHeadingSentence(events, k);
      assert HeadingKnown(cfg, events, HeadingIn(cfg, events[k].parsed).value, events[k].stamp);
    }
  }

  lemma GstReady(cfg: AdapterConfig, events: seq<Event>, at: real)
    ensures var g := AdapterRun(cfg, events).gate;
            && (g.gst.Some? && g.gstStamp.Some? && IsFresh(g.gstStamp.value, at, cfg.gate.gstMaxAge) <==>
                  exists gst, stamp :: GstKnown(events, gst, stamp) && InWindow(stamp, at, cfg.gate.gstMaxAge))
            && forall gst, stamp :: GstKnown(events, gst, stamp) ==> g.gst == Some(gst)
  {
    hide AdapterRun;
    GstKept(cfg, events);
    var g := AdapterRun(cfg, events).gate;
    if g.gst.Some? {
      var k: nat :| LatestGstSentence(events, k);
      assert GstKnown(events, events[k].parsed.gst, events[k].stamp);
    }
  }

  /**
    * A GGA sentence puts an accepted fix on the wire exactly when the sentences before it make it
    * one: usable quality and position, a heading and deviations that the latest sentences vouch
    * for and that are inside their windows, and the output ready. The fix carries just those.
    */
  lemma SentenceAcceptedExactly(cfg: AdapterConfig, events: seq<Event>, gga: Gga, stamp: real, tfReady: bool)
    ensures var s := AdapterRun(cfg, events);
            var t := AdapterStep(cfg, s, Sentence(GgaSentence(gga), stamp, tfReady));
            && |t.published| == |s.published| + 1 && t.effective == Some(t.published[|s.published|])
            && (Accepting(t) <==> FixReady(cfg, events, gga, stamp, tfReady))
            && t.receiver.Some? && (t.receiver.value.accepted <==> EvidenceReady(cfg, events, gga, stamp))
            && (t.receiver.value.accepted ==> Carries(cfg, events, t.receiver.value))
            && t.effective.value.stamp == stamp && t.effective.value.gga == gga
            && (Accepting(t) ==> Carries(cfg, events, t.effective.value))
            && (!Accepting(t) ==> t.effective.value.orientation.None? && t.effective.value.variances.None?)
  {
    hide AdapterRun, Prerequisite, Decided, HeadingKnown, GstKnown, OutputReady, Carries, IsFresh, InWindow;
    var s := AdapterRun(cfg, events);
    ReadyExactly(cfg, events, tfReady);
    HeadingReady(cfg, events, stamp);
    GstReady(cfg, events, stamp);
    DecidedExactly(cfg.gate, s.gate, gga, stamp);
    if Decided(cfg.gate, s.gate, gga, stamp).accepted { DecidedCarries(cfg, events, gga, stamp); }
  }

  /** The orientation of the known heading and the squared deviations of the known GST. */
  ghost predicate Carries(cfg: AdapterConfig, events: seq<Event>, d: Decision) {
    && d.reason == (if d.gga.quality == 4 then "rtk_fixed" else "rtk_float")
    && (forall heading, stamp :: HeadingKnown(cfg, events, heading, stamp) ==>
          d.orientation == Some(Orientation(stamp, cfg.gate.yawOf(heading))))
    && (forall gst, stamp :: GstKnown(events, gst, stamp) ==>
          d.variances == Some(Squared(gst)))
  }

  /** East, north and up, from longitude, latitude and altitude. */
  function Squared(gst: Gst): Variances {
    Variances(gst.longitude * gst.longitude, gst.latitude * gst.latitude, gst.altitude * gst.altitude)
  }

  lemma DecidedCarries(cfg: AdapterConfig, events: seq<Event>, gga: Gga, stamp: real)
    requires Decided(cfg.gate, AdapterRun(cfg, events).gate, gga, stamp).accepted
    ensures Carries(cfg, events, Decided(cfg.gate, AdapterRun(cfg, events).gate, gga, stamp))
  {
    hide AdapterRun, HeadingKnown, GstKnown, IsFresh, Decided, Squared;
    HeadingReady(cfg, events, stamp);
    GstReady(cfg, events, stamp);
    DecidedExactly(cfg.gate, AdapterRun(cfg, events).gate, gga, stamp);
    AcceptedValue(cfg.gate, AdapterRun(cfg, events).gate, gga, stamp);
  }

  lemma DecidedExactly(cfg: GateConfig, g: Gate, gga: Gga, stamp: real)
    ensures var d := Decided(cfg, g, gga, stamp);
            && d.stamp == stamp && d.gga == gga && (!d.accepted ==> d.orientation.None? && d.variances.None?)
            && (d.accepted <==>
                  && (gga.quality == 4 || gga.quality == 5)
                  && gga.latitude.Some? && gga.longitude.Some? && gga.altitude.Some?
                  && g.orientation.Some? && IsFresh(g.orientation.value.stamp, stamp, cfg.headingMaxAge)
                  && g.gst.Some? && g.gstStamp.Some? && IsFresh(g.gstStamp.value, stamp, cfg.gstMaxAge))
  {
    hide IsFresh, QualityText, Square;
  }

  lemma AcceptedValue(cfg: GateConfig, g: Gate, gga: Gga, stamp: real)
    requires Decided(cfg, g, gga, stamp).accepted && g.gst.Some?
    ensures var d := Decided(cfg, g, gga, stamp);
            && d.reason == (if gga.quality == 4 then "rtk_fixed" else "rtk_float") && d.orientation == g.orientation
            && d.variances == Some(Squared(g.gst.value))
  {
    hide Rejection, QualityText;
    SquaredAre(g.gst.value);
    QualityUsable(cfg, g, gga, stamp);
  }

  lemma QualityUsable(cfg: GateConfig, g: Gate, gga: Gga, stamp: real)
    ensures Rejection(cfg, g, gga, stamp).None? ==> (gga.quality == 4 || gga.quality == 5) && g.gst.Some?
  {
    hide IsFresh, QualityText;
  }

  lemma SquaredAre(gst: Gst)
    ensures Variances(Square(gst.longitude), Square(gst.latitude), Square(gst.altitude)) == Squared(gst)
  {
  }

  /** A malformed GGA revokes whatever stood, on the wire; any other sentence than a GGA publishes nothing. */
  lemma OtherSentencesExactly(cfg: AdapterConfig, s: Adapter, parsed: Parsed, stamp: real, tfReady: bool)
    requires !parsed.GgaSentence?
    ensures var t := AdapterStep(cfg, s, Sentence(parsed, stamp, tfReady));
            if parsed == Malformed(true) then
              var revoked := Decision(stamp, Gga(-1, 0, None, None, None, None), false, "invalid_gga", None, None);
              t.published == s.published + [revoked] && t.effective == Some(revoked) && t.receiver == Some(revoked)
            else t.published == s.published && t.effective == s.effective && t.receiver == s.receiver
  {
    hide Prerequisite, Decided, Rejection, Expiry, Lower;
  }

  /**
    * After a watchdog tick an accepted fix is one from before it, inside the timeout, with every
    * prerequisite holding; the tick takes back every other.
    */
  lemma WatchdogExactly(cfg: AdapterConfig, events: seq<Event>, now: real, tfReady: bool)
    ensures var s := AdapterRun(cfg, events);
            var t := AdapterStep(cfg, s, Watchdog(now, tfReady));
            && (Accepting(t) <==>
                  Accepting(s) && InWindow(s.effective.value.stamp, now, cfg.gate.fixTimeout)
                  && OutputReady(cfg, events, tfReady))
            && (Accepting(t) ==> t == s)
            && (Accepting(s) && !Accepting(t) ==>
                  && |t.published| == |s.published| + 1 && t.effective.value.stamp == now
                  && t.effective.value.orientation.None? && t.effective.value.variances.None?
                  && var reason, age := t.effective.value.reason, now - s.effective.value.stamp;
                     if age < -0.000000001 then reason == "clock_reset" && t.effective.value.gga == Gga(-1, 0, None, None, None, None)
                     else if age > cfg.gate.fixTimeout + 0.000000001
                     then reason == "timeout" && t.effective.value.gga == Gga(-1, 0, None, None, None, None)
                     else WithheldFor(cfg, events, tfReady, reason) && t.effective.value.gga == s.effective.value.gga)
            && (t.published == s.published || !Accepting(t))
  {
    hide AdapterRun, Prerequisite, OutputReady, WithheldFor;
    ReadyExactly(cfg, events, tfReady);
    WithheldExactly(cfg, events, tfReady);
    RunsKeep(cfg, events);
  }

  /** A step publishes at most one fix, and an accepted one only for a GGA sentence. */
  lemma StepPublishes(cfg: AdapterConfig, s: Adapter, e: Event)
    requires Invariant(s)
    ensures var t := AdapterStep(cfg, s, e);
            && (t.published == s.published || (t.effective.Some? && t.published == s.published + [t.effective.value]))
            && (t.published != s.published && Accepting(t) ==> e.Sentence? && e.parsed.GgaSentence?)
  {
    hide Prerequisite, GnssGate.Step, Decided;
  }

  /** Every accepted fix ever put on the wire was such a GGA sentence, and carries what the sentences before it said. */
  lemma {:induction false} EveryAcceptedFix(cfg: AdapterConfig, events: seq<Event>, i: nat) returns (k: nat)
    requires i < |AdapterRun(cfg, events).published| && AdapterRun(cfg, events).published[i].accepted
    ensures k < |events| && events[k].Sentence? && events[k].parsed.GgaSentence?
    ensures var fix, e := AdapterRun(cfg, events).published[i], events[k];
            && fix.gga == e.parsed.gga && fix.stamp == e.stamp
            && FixReady(cfg, events[..k], fix.gga, fix.stamp, e.tfReady) && Carries(cfg, events[..k], fix)
  {
    hide AdapterStep, Invariant, FixReady, Carries;
    assert events != [];
    k := |events| - 1;
    var before, e := events[..k], events[k];
    var s := AdapterRun(cfg, before);
    RunsKeep(cfg, before);
    StepPublishes(cfg, s, e);
    if i < |s.published| {
      k := EveryAcceptedFix(cfg, before, i);
      assert before[..k] == events[..k];
    } else {
      SentenceAcceptedExactly(cfg, before, e.parsed.gga, e.stamp, e.tfReady);
    }
  }

  // ----- what the diagnostics report

  predicate GgaEvidence(e: Event) {
    e.Sentence? && (e.parsed.GgaSentence? || e.parsed == Malformed(true))
  }

  predicate LatestGgaSentence(events: seq<Event>, k: nat) {
    k < |events| && GgaEvidence(events[k]) && forall j :: k < j < |events| ==> !GgaEvidence(events[j])
  }

  /** How many sentences of a run could not be parsed, or are of no kind that is used. */
  function Unused(events: seq<Event>, malformed: bool): nat {
    if events == [] then 0
    else
      var n := |events| - 1;
      var e := events[n];
      Unused(events[..n], malformed)
      + if e.Sentence? && (if malformed then e.parsed.Malformed? else e.parsed.OtherSentence?) then 1 else 0
  }

  /** The stamps are those of the latest sentences of each kind, deviations that are unavailable having none. */
  lemma DiagnosticsKept(cfg: AdapterConfig, events: seq<Event>)
    ensures var s := AdapterRun(cfg, events);
            && (forall k: nat :: LatestHeadingSentence(events, k) ==> s.lastHeadingStamp == Some(events[k].stamp))
            && ((forall k: nat :: !LatestHeadingSentence(events, k)) ==> s.lastHeadingStamp.None?)
            && (forall k: nat :: LatestGgaSentence(events, k) ==> s.lastGgaStamp == Some(events[k].stamp))
            && ((forall k: nat :: !LatestGgaSentence(events, k)) ==> s.lastGgaStamp.None?)
            && s.lastGstStamp == s.gate.gstStamp
            && s.invalidSentences == Unused(events, true) && s.ignoredSentences == Unused(events, false)
  {
    hide *;
    HeadingStampKept(cfg, events);
    GgaStampKept(cfg, events);
    CountsKept(cfg, events);
  }

  lemma {:induction false} HeadingStampKept(cfg: AdapterConfig, events: seq<Event>)
    ensures var s := AdapterRun(cfg, events);
            && (forall k: nat :: LatestHeadingSentence(events, k) ==> s.lastHeadingStamp == Some(events[k].stamp))
            && ((forall k: nat :: !LatestHeadingSentence(events, k)) ==> s.lastHeadingStamp.None?)
  {
    hide AdapterStep;
    if events != [] {
      var n := |events| - 1;
      var before, e := events[..n], events[n];
      HeadingStampKept(cfg, before);
      NextDiagnostics(cfg, AdapterRun(cfg, before), e);
      if HeadingSentence(e) {
        assert LatestHeadingSentence(events, n) && forall k: nat :: LatestHeadingSentence(events, k) ==> k == n;
      } else {
        assert forall k: nat :: LatestHeadingSentence(events, k) <==> LatestHeadingSentence(before, k);
      }
    }
  }

  lemma {:induction false} GgaStampKept(cfg: AdapterConfig, events: seq<Event>)
    ensures var s := AdapterRun(cfg, events);
            && (forall k: nat :: LatestGgaSentence(events, k) ==> s.lastGgaStamp == Some(events[k].stamp))
            && ((forall k: nat :: !LatestGgaSentence(events, k)) ==> s.lastGgaStamp.None?)
  {
    hide AdapterStep;
    if events != [] {
      var n := |events| - 1;
      var before, e := events[..n], events[n];
      GgaStampKept(cfg, before);
      NextDiagnostics(cfg, AdapterRun(cfg, before), e);
      if GgaEvidence(e) {
        assert LatestGgaSentence(events, n) && forall k: nat :: LatestGgaSentence(events, k) ==> k == n;
      } else {
        assert forall k: nat :: LatestGgaSentence(events, k) <==> LatestGgaSentence(before, k);
      }
    }
  }

  lemma {:induction false} CountsKept(cfg: AdapterConfig, events: seq<Event>)
    ensures var s := AdapterRun(cfg, events);
            && s.lastGstStamp == s.gate.gstStamp
            && s.invalidSentences == Unused(events, true) && s.ignoredSentences == Unused(events, false)
  {
    hide AdapterStep;
    if events != [] {
      CountsKept(cfg, events[..|events| - 1]);
      NextDiagnostics(cfg, AdapterRun(cfg, events[..|events| - 1]), events[|events| - 1]);
    }
  }

  lemma NextDiagnostics(cfg: AdapterConfig, s: Adapter, e: Event)
    ensures var t := AdapterStep(cfg, s, e);
            && t.lastHeadingStamp == (if HeadingSentence(e) then Some(e.stamp) else s.lastHeadingStamp)
            && t.lastGgaStamp == (if GgaEvidence(e) then Some(e.stamp) else s.lastGgaStamp)
            && (s.lastGstStamp == s.gate.gstStamp ==> t.lastGstStamp == t.gate.gstStamp)
            && t.invalidSentences == s.invalidSentences + (if e.Sentence? && e.parsed.Malformed? then 1 else 0)
            && t.ignoredSentences == s.ignoredSentences + (if e.Sentence? && e.parsed.OtherSentence? then 1 else 0)
  {
    hide AdapterStep, Rejection, Expiry;
    StepSteps(cfg, s, e);
  }

  // ----- the adapter object

  class G90NmeaAdapter {
    const cfg: AdapterConfig
    const gate: NmeaGnssGate
    var lastReceiverDecision: Option<Decision>
    var lastEffectiveDecision: Option<Decision>
    var mapProjectorType: Option<string>
    var lastGgaStamp: Option<real>
    var lastHeadingStamp: Option<real>
    var lastGstStamp: Option<real>
    var invalidSentenceCount: nat
    var ignoredSentenceCount: nat
    /** The fixes put on the wire. */
    ghost var published: seq<Decision>

    ghost predicate Wired() {
      gate.cfg == cfg.gate
    }

    ghost function State(): Adapter
      reads this, gate
    {
      Adapter(gate.State(), lastReceiverDecision, lastEffectiveDecision, mapProjectorType,
              lastGgaStamp, lastHeadingStamp, lastGstStamp, invalidSentenceCount, ignoredSentenceCount, published)
    }

    constructor (cfg: AdapterConfig)
      requires cfg.gate.headingMaxAge >= 0.0 && cfg.gate.gstMaxAge >= 0.0 && cfg.gate.fixTimeout > 0.0
      ensures this.cfg == cfg && Wired() && State() == WAITING && fresh(gate)
    {
      this.cfg := cfg;
      gate := new NmeaGnssGate(cfg.gate);
      lastReceiverDecision, lastEffectiveDecision, mapProjectorType := None, None, None;
      lastGgaStamp, lastHeadingStamp, lastGstStamp := None, None, None;
      invalidSentenceCount, ignoredSentenceCount := 0, 0;
      published := [];
    }

    lemma Fields()
      ensures State().gate == gate.State() && State().effective == lastEffectiveDecision
      ensures State().projector == mapProjectorType
    {
    }

    method OnMapProjectorInfo(kind: string)
      modifies `mapProjectorType
      ensures State() == AdapterStep(cfg, old(State()), Projector(kind))
    {
      hide OnSentence, OnWatchdog;
      mapProjectorType := Some(kind);
    }

    method PublishFix(effective: Decision)
      modifies `lastEffectiveDecision, `published
      ensures State() == Publish(old(State()), effective)
    {
      published := published + [effective];
      lastEffectiveDecision := Some(effective);
    }

    method NoteReceiver(d: Decision)
      modifies `lastReceiverDecision
      ensures State() == old(State()).(receiver := Some(d))
    {
      lastReceiverDecision := Some(d);
    }

    method PublishReceiverDecision(d: Decision, tfReady: bool)
      modifies this
      ensures State() == PublishReceiver(cfg, old(State()), d, tfReady)
    {
      hide State, Publish, Prerequisite;
      Fields();
      NoteReceiver(d);
      Fields();
      var effective := d;
      if d.accepted {
        var reason := Prerequisite(cfg, mapProjectorType, tfReady);
        if reason.Some? {
          effective := RuntimeRejection(d, reason.value);
        }
      }
      PublishFix(effective);
    }

    method OnNmeaSentence(parsed: Parsed, stamp: real, tfReady: bool)
      requires Wired()
      modifies this, gate
      ensures State() == AdapterStep(cfg, old(State()), Sentence(parsed, stamp, tfReady))
    {
      hide State, OnWatchdog, ThroughGate, GnssGate.Step, DecisionOf, Noted;
      NoteSentence(parsed, stamp);
      match parsed {
        case Hdt(heading) =>
          if cfg.allowStatuslessHdt {
            AcceptHeading(heading, stamp, tfReady);
          } else {
            RejectHeading("heading_status_unavailable", tfReady);
          }
        case Ths(heading, mode) =>
          if mode == 'A' && heading.Some? {
            AcceptHeading(heading.value, stamp, tfReady);
          } else {
            RejectHeading("heading_mode_" + [Lower(mode)], tfReady);
          }
        case GstSentence(gst) => AcceptGst(gst, stamp, tfReady);
        case GstUnavailable => RejectGst(tfReady);
        case GgaSentence(gga) => AcceptGga(gga, stamp, tfReady);
        case OtherSentence =>
        case Malformed(isGga) =>
          if isGga {
            RejectGga(stamp, "invalid_gga", tfReady);
          }
      }
    }

    method NoteSentence(parsed: Parsed, stamp: real)
      modifies `lastHeadingStamp, `lastGstStamp, `lastGgaStamp, `invalidSentenceCount, `ignoredSentenceCount
      ensures State() == Noted(old(State()), parsed, stamp)
    {
      match parsed {
        case Hdt(_) => lastHeadingStamp := Some(stamp);
        case Ths(_, _) => lastHeadingStamp := Some(stamp);
        case GstSentence(_) => lastGstStamp := Some(stamp);
        case GstUnavailable => lastGstStamp := None;
        case GgaSentence(_) => lastGgaStamp := Some(stamp);
        case OtherSentence => ignoredSentenceCount := ignoredSentenceCount + 1;
        case Malformed(isGga) =>
          invalidSentenceCount := invalidSentenceCount + 1;
          if isGga {
            lastGgaStamp := Some(stamp);
          }
      }
    }

    method AcceptHeading(heading: real, stamp: real, tfReady: bool)
      requires Wired()
      modifies gate
      ensures State() == ThroughGate(cfg, old(State()), HeadingAccepted(heading, stamp), tfReady)
    {
      gate.AcceptHeading(heading, stamp);
    }

    method RejectHeading(reason: string, tfReady: bool)
      requires Wired() && reason != ""
      modifies gate
      ensures State() == ThroughGate(cfg, old(State()), HeadingRejected(reason), tfReady)
    {
      gate.RejectHeading(reason);
    }

    method AcceptGst(gst: Gst, stamp: real, tfReady: bool)
      requires Wired()
      modifies gate
      ensures State() == ThroughGate(cfg, old(State()), GstAccepted(gst, stamp), tfReady)
    {
      gate.AcceptGst(gst, stamp);
    }

    method RejectGst(tfReady: bool)
      requires Wired()
      modifies gate
      ensures State() == ThroughGate(cfg, old(State()), GstRejected, tfReady)
    {
      gate.RejectGst();
    }

    method AcceptGga(gga: Gga, stamp: real, tfReady: bool)
      requires Wired()
      modifies this, gate
      ensures State() == ThroughGate(cfg, old(State()), GgaReceived(gga, stamp), tfReady)
    {
      hide Decided, Rejection, PublishReceiver;
      var d := gate.AcceptGga(gga, stamp);
      PublishReceiverDecision(d, tfReady);
    }

    method RejectGga(stamp: real, reason: string, tfReady: bool)
      requires Wired() && reason != ""
      modifies this, gate
      ensures State() == ThroughGate(cfg, old(State()), GgaRejected(stamp, reason), tfReady)
    {
      hide PublishReceiver;
      var d := gate.RejectGga(stamp, reason);
      PublishReceiverDecision(d, tfReady);
    }

    method OnWatchdogTimer(now: real, tfReady: bool)
      requires Wired()
      modifies this, gate
      ensures State() == AdapterStep(cfg, old(State()), Watchdog(now, tfReady))
    {
      hide State, OnSentence, Prerequisite, Publish, PublishReceiver, DecisionOf, GnssGate.Step;
      Fields();
      QuietExpiry(cfg.gate, State().gate, now);
      var expired := ExpireAtGate(now);
      if expired.Some? {
        PublishReceiverDecision(expired.value, tfReady);
        return;
      }
      Fields();
      if lastEffectiveDecision.Some? && lastEffectiveDecision.value.accepted {
        var reason := Prerequisite(cfg, mapProjectorType, tfReady);
        if reason.Some? {
          PublishFix(RuntimeRejection(lastEffectiveDecision.value.(stamp := now), reason.value));
        }
      }
    }

    method ExpireAtGate(now: real) returns (expired: Option<Decision>)
      requires Wired()
      modifies gate
      ensures State() == old(State()).(gate := GnssGate.Step(cfg.gate, old(State()).gate, Expire(now)))
      ensures expired == DecisionOf(cfg.gate, old(State()).gate, Expire(now))
    {
      expired := gate.ExpireFix(now);
    }
  }
}
