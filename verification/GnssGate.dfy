/** The fix gate of the G90 receiver: which GGA sentences become usable fixes. */
module GnssGate {
  import opened Basics

  const TIME_EPSILON := 0.000000001

  datatype Gga = Gga(
    quality: int, satellites: int, hdop: Option<real>,
    latitude: Option<real>, longitude: Option<real>, altitude: Option<real>)
  {
    predicate PositionComplete() {
      latitude.Some? && longitude.Some? && altitude.Some?
    }
  }

  /** Standard deviations in metres. */
  datatype Gst = Gst(latitude: real, longitude: real, altitude: real)

  /** The quaternion is a function of the yaw and is not part of this model. */
  datatype Orientation = Orientation(stamp: real, yaw: real)

  datatype Variances = Variances(east: real, north: real, up: real)

  datatype Decision = Decision(
    stamp: real, gga: Gga, accepted: bool, reason: string, orientation: Option<Orientation>, variances: Option<Variances>)

  const NO_GGA := Gga(-1, 0, None, None, None, None)

  /** `yawOf` turns a true heading into a yaw, with the mounting offset. */
  datatype GateConfig = GateConfig(yawOf: real -> real, headingMaxAge: real, gstMaxAge: real, fixTimeout: real)

  datatype Gate = Gate(
    orientation: Option<Orientation>, headingReason: string, gst: Option<Gst>, gstStamp: Option<real>,
    lastGgaStamp: Option<real>, lastAccepted: bool)

  const CLOSED := Gate(None, "heading_missing", None, None, None, false)

  predicate IsFresh(stamp: real, at: real, maxAge: real) {
    -TIME_EPSILON <= at - stamp <= maxAge + TIME_EPSILON
  }

  function UsableQuality(quality: int): Option<string> {
    if quality == 4 then Some("rtk_fixed") else if quality == 5 then Some("rtk_float") else None
  }

  /** Decimal digits of a quality, for the reason text. */
  function Digits(n: nat): string {
    if n < 10 then [('0' as int + n) as char] else Digits(n / 10) + [('0' as int + n % 10) as char]
  }

  function QualityText(quality: int): string {
    if quality < 0 then "quality_-" + Digits(-quality) else "quality_" + Digits(quality)
  }

  /** The number that digits denote. */
  function NumberOf(digits: string): int {
    if digits == "" then 0
    else NumberOf(digits[..|digits| - 1]) * 10 + (digits[|digits| - 1] as int - '0' as int)
  }

  lemma {:induction false} DigitsDenote(n: nat)
    ensures Digits(n) != "" && NumberOf(Digits(n)) == n && forall c :: c in Digits(n) ==> '0' <= c <= '9'
  {
    if n >= 10 {
      DigitsDenote(n / 10);
      assert Digits(n)[..|Digits(n)| - 1] == Digits(n / 10);
    } else {
      assert NumberOf(Digits(n)[..0]) == 0;
    }
  }

  /** The text of a quality is a word that no other quality has: it denotes the quality. */
  lemma QualityTextReads(quality: int)
    ensures var text := QualityText(quality);
            && |text| > 8 && text[..8] == "quality_"
            && if quality < 0 then text[8] == '-' && NumberOf(text[9..]) == -quality else NumberOf(text[8..]) == quality
  {
    DigitsDenote(if quality < 0 then -quality else quality);
    if quality < 0 {
      assert QualityText(quality)[9..] == Digits(-quality);
    } else {
      assert QualityText(quality)[8..] == Digits(quality);
    }
  }

  /** Why a GGA is rejected; nothing when it is accepted. */
  function Rejection(cfg: GateConfig, g: Gate, gga: Gga, stamp: real): Option<string> {
    if UsableQuality(gga.quality).None? then Some(QualityText(gga.quality))
    else if !gga.PositionComplete() then Some("position_missing")
    else if g.orientation.None? then Some(g.headingReason)
    else if !IsFresh(g.orientation.value.stamp, stamp, cfg.headingMaxAge) then Some("heading_stale")
    else if g.gst.None? || g.gstStamp.None? then Some("covariance_missing")
    else if !IsFresh(g.gstStamp.value, stamp, cfg.gstMaxAge) then Some("covariance_stale")
    else None
  }

  function Square(x: real): real {
    x * x
  }

  function Rejected(gga: Gga, stamp: real, reason: string): Decision {
    Decision(stamp, gga, false, reason, None, None)
  }

  function Decided(cfg: GateConfig, g: Gate, gga: Gga, stamp: real): Decision {
    var rejection := Rejection(cfg, g, gga, stamp);
    if rejection.Some? then Rejected(gga, stamp, rejection.value)
    else
      Decision(stamp, gga, true, UsableQuality(gga.quality).value, g.orientation,
               Some(Variances(Square(g.gst.value.longitude), Square(g.gst.value.latitude), Square(g.gst.value.altitude))))
  }

  /** Why an accepted fix is taken back at time `now`. */
  function Expiry(cfg: GateConfig, g: Gate, now: real): Option<string> {
    if !g.lastAccepted || g.lastGgaStamp.None? then None
    else
      var age := now - g.lastGgaStamp.value;
      if age < -TIME_EPSILON then Some("clock_reset")
      else if age > cfg.fixTimeout + TIME_EPSILON then Some("timeout")
      else None
  }

  // ----- events

  datatype GateEvent =
    | HeadingAccepted(heading: real, stamp: real)
    | HeadingRejected(reason: string)
    | GstAccepted(gst: Gst, stamp: real)
    | GstRejected
    | GgaReceived(gga: Gga, stamp: real)
    | GgaRejected(stamp: real, reason: string)
    | Expire(now: real)

  function Step(cfg: GateConfig, g: Gate, e: GateEvent): Gate {
    match e
    case HeadingAccepted(heading, stamp) => g.(orientation := Some(Orientation(stamp, cfg.yawOf(heading))), headingReason := "")
    case HeadingRejected(reason) => g.(orientation := None, headingReason := reason)
    case GstAccepted(gst, stamp) => g.(gst := Some(gst), gstStamp := Some(stamp))
    case GstRejected => g.(gst := None, gstStamp := None)
    case GgaReceived(gga, stamp) => g.(lastGgaStamp := Some(stamp), lastAccepted := Rejection(cfg, g, gga, stamp).None?)
    case GgaRejected(stamp, _) => g.(lastGgaStamp := Some(stamp), lastAccepted := false)
    case Expire(now) =>
      if Expiry(cfg, g, now).None? then g else g.(lastGgaStamp := Some(now), lastAccepted := false)
  }

  /** The decision an event produces. */
  function DecisionOf(cfg: GateConfig, g: Gate, e: GateEvent): Option<Decision> {
    match e
    case GgaReceived(gga, stamp) => Some(Decided(cfg, g, gga, stamp))
    case GgaRejected(stamp, reason) => Some(Rejected(NO_GGA, stamp, reason))
    case Expire(now) =>
      (match Expiry(cfg, g, now)
       case None => None
       case Some(reason) => Some(Rejected(NO_GGA, now, reason)))
    case _ => None
  }

  function Run(cfg: GateConfig, trace: seq<GateEvent>): Gate {
    if trace == [] then CLOSED else Step(cfg, Run(cfg, trace[..|trace| - 1]), trace[|trace| - 1])
  }

  // ----- the history specification

  predicate HeadingEvent(e: GateEvent) {
    e.HeadingAccepted? || e.HeadingRejected?
  }

  predicate GstEvent(e: GateEvent) {
    e.GstAccepted? || e.GstRejected?
  }

  predicate LatestHeading(trace: seq<GateEvent>, k: nat) {
    k < |trace| && HeadingEvent(trace[k]) && forall j :: k < j < |trace| ==> !HeadingEvent(trace[j])
  }

  predicate LatestGst(trace: seq<GateEvent>, k: nat) {
    k < |trace| && GstEvent(trace[k]) && forall j :: k < j < |trace| ==> !GstEvent(trace[j])
  }

  /** A stamp is no older than a window and not from the future, up to 1e-9. */
  predicate InWindow(stamp: real, at: real, maxAge: real) {
    -0.000000001 <= at - stamp <= maxAge + 0.000000001
  }

  /** The latest heading event was an acceptance whose age is inside the window. */
  ghost predicate HeadingUsable(cfg: GateConfig, trace: seq<GateEvent>, at: real) {
    exists k: nat :: LatestHeading(trace, k) && trace[k].HeadingAccepted? && InWindow(trace[k].stamp, at, cfg.headingMaxAge)
  }

  /** The latest GST event was an acceptance whose age is inside the window. */
  ghost predicate GstUsable(cfg: GateConfig, trace: seq<GateEvent>, at: real) {
    exists k: nat :: LatestGst(trace, k) && trace[k].GstAccepted? && InWindow(trace[k].stamp, at, cfg.gstMaxAge)
  }

  /** The gate keeps the orientation of the latest heading event, or why there is none. */
  lemma {:induction false} HeadingRecorded(cfg: GateConfig, trace: seq<GateEvent>) returns (k: nat)
    ensures var g := Run(cfg, trace);
            if LatestHeading(trace, k) then
              match trace[k]
              case HeadingAccepted(heading, stamp) => g.orientation == Some(Orientation(stamp, cfg.yawOf(heading)))
              case HeadingRejected(reason) => g.orientation.None? && g.headingReason == reason
              case _ => true
            else
              && (forall j :: 0 <= j < |trace| ==> !HeadingEvent(trace[j]))
              && g.orientation.None? && g.headingReason == "heading_missing"
  {
    k := 0;
    if trace != [] {
      var n := |trace| - 1;
      var before := trace[..n];
      k := HeadingRecorded(cfg, before);
      if HeadingEvent(trace[n]) {
        k := n;
      } else {
        assert LatestHeading(trace, k) <==> LatestHeading(before, k);
      }
    }
  }

  /** The gate keeps the deviations of the latest GST event, if it was an acceptance. */
  lemma {:induction false} GstRecorded(cfg: GateConfig, trace: seq<GateEvent>) returns (k: nat)
    ensures var g := Run(cfg, trace);
            if LatestGst(trace, k) then
              match trace[k]
              case GstAccepted(gst, stamp) => g.gst == Some(gst) && g.gstStamp == Some(stamp)
              case _ => g.gst.None? && g.gstStamp.None?
            else (forall j :: 0 <= j < |trace| ==> !GstEvent(trace[j])) && g.gst.None? && g.gstStamp.None?
  {
    k := 0;
    if trace != [] {
      var n := |trace| - 1;
      var before := trace[..n];
      k := GstRecorded(cfg, before);
      if GstEvent(trace[n]) {
        k := n;
      } else {
        assert LatestGst(trace, k) <==> LatestGst(before, k);
      }
    }
  }

  /** What the gate is for: the fixes it accepts, told from the history alone. */
  ghost predicate Usable(cfg: GateConfig, trace: seq<GateEvent>, gga: Gga, stamp: real) {
    && (gga.quality == 4 || gga.quality == 5) && gga.latitude.Some? && gga.longitude.Some? && gga.altitude.Some?
    && HeadingUsable(cfg, trace, stamp) && GstUsable(cfg, trace, stamp)
  }

  /**
    * A GGA is accepted exactly if it is usable. The fix then carries the orientation of the latest
    * heading event, and east, north and up variances that are the squares of the longitude,
    * latitude and altitude deviations of the latest GST event.
    */
  lemma AcceptedExactly(cfg: GateConfig, trace: seq<GateEvent>, gga: Gga, stamp: real)
    ensures var d := Decided(cfg, Run(cfg, trace), gga, stamp);
            && (d.accepted <==> Usable(cfg, trace, gga, stamp)) && d.stamp == stamp && d.gga == gga
            && (!d.accepted ==> d.orientation.None? && d.variances.None?)
            && (d.accepted ==>
                  && d.reason == (if gga.quality == 4 then "rtk_fixed" else "rtk_float")
                  && (forall k: nat :: LatestHeading(trace, k) ==>
                        d.orientation == Some(Orientation(trace[k].stamp, cfg.yawOf(trace[k].heading))))
                  && d.variances.Some?
                  && forall k: nat :: LatestGst(trace, k) ==>
                       && trace[k].GstAccepted?
                       && d.variances.value.east == trace[k].gst.longitude * trace[k].gst.longitude
                       && d.variances.value.north == trace[k].gst.latitude * trace[k].gst.latitude
                       && d.variances.value.up == trace[k].gst.altitude * trace[k].gst.altitude)
  {
    hide Run, Square;
    var h := HeadingRecorded(cfg, trace);
    var c := GstRecorded(cfg, trace);
    assert forall k: nat :: LatestHeading(trace, k) ==> LatestHeading(trace, h) && k == h;
    assert forall k: nat :: LatestGst(trace, k) ==> LatestGst(trace, c) && k == c;
    Squares();
  }

  lemma Squares()
    ensures forall x: real :: Square(x) == x * x
  {
  }

  /** Why a GGA is rejected: the first thing that is missing or stale. */
  ghost predicate RejectedFor(cfg: GateConfig, trace: seq<GateEvent>, gga: Gga, stamp: real, reason: string) {
    if gga.quality != 4 && gga.quality != 5 then reason == QualityText(gga.quality)
    else if gga.latitude.None? || gga.longitude.None? || gga.altitude.None? then reason == "position_missing"
    else if forall j :: 0 <= j < |trace| ==> !HeadingEvent(trace[j]) then reason == "heading_missing"
    else if !HeadingUsable(cfg, trace, stamp) then
      forall k: nat :: LatestHeading(trace, k) ==>
        reason == if trace[k].HeadingRejected? then trace[k].reason else "heading_stale"
    else if forall k: nat :: LatestGst(trace, k) ==> trace[k].GstRejected? then reason == "covariance_missing"
    else reason == "covariance_stale"
  }

  lemma RejectedExactly(cfg: GateConfig, trace: seq<GateEvent>, gga: Gga, stamp: real)
    requires !Decided(cfg, Run(cfg, trace), gga, stamp).accepted
    ensures RejectedFor(cfg, trace, gga, stamp, Decided(cfg, Run(cfg, trace), gga, stamp).reason)
  {
    hide Run, QualityText;
    var h := HeadingRecorded(cfg, trace);
    var c := GstRecorded(cfg, trace);
    assert forall k: nat :: LatestHeading(trace, k) ==> LatestHeading(trace, h) && k == h;
    assert forall k: nat :: LatestGst(trace, k) ==> LatestGst(trace, c) && k == c;
    SomeLatest(trace);
  }

  /** Where there is a heading event, one is the latest. */
  lemma {:induction false} SomeLatest(trace: seq<GateEvent>)
    ensures (forall k: nat :: !LatestHeading(trace, k)) ==> forall j :: 0 <= j < |trace| ==> !HeadingEvent(trace[j])
  {
    if trace != [] {
      var n := |trace| - 1;
      if HeadingEvent(trace[n]) {
        assert LatestHeading(trace, n);
      } else {
        SomeLatest(trace[..n]);
        assert forall k: nat :: LatestHeading(trace, k) <==> LatestHeading(trace[..n], k);
      }
    }
  }

  // ----- expiry

  /** The accepted fix that stands: nothing has decided since. */
  ghost predicate Stands(cfg: GateConfig, trace: seq<GateEvent>, k: nat) {
    && k < |trace| && trace[k].GgaReceived?
    && DecisionOf(cfg, Run(cfg, trace[..k]), trace[k]).value.accepted
    && forall j :: k < j < |trace| ==> DecisionOf(cfg, Run(cfg, trace[..j]), trace[j]).None?
  }

  /** Only decisions change whether a fix stands. */
  lemma StepDecides(cfg: GateConfig, g: Gate, e: GateEvent)
    ensures var d, after := DecisionOf(cfg, g, e), Step(cfg, g, e);
            && (d.None? ==> after.lastAccepted == g.lastAccepted && after.lastGgaStamp == g.lastGgaStamp)
            && (d.Some? ==> after.lastAccepted == d.value.accepted)
            && (e.GgaReceived? ==> d.Some?)
            && (d.Some? && d.value.accepted ==> e.GgaReceived? && after.lastGgaStamp == Some(e.stamp))
  {
  }

  lemma {:induction false} StandingFix(cfg: GateConfig, trace: seq<GateEvent>) returns (k: nat)
    ensures Run(cfg, trace).lastAccepted ==>
              Stands(cfg, trace, k) && Run(cfg, trace).lastGgaStamp == Some(trace[k].stamp)
  {
    hide Step, DecisionOf;
    k := 0;
    if trace != [] {
      var n := |trace| - 1;
      var before, e := trace[..n], trace[n];
      StepDecides(cfg, Run(cfg, before), e);
      k := StandingFix(cfg, before);
      if DecisionOf(cfg, Run(cfg, before), e).Some? {
        k := n;
      } else if Run(cfg, before).lastAccepted {
        assert trace[..k] == before[..k];
        forall j | k < j < |trace| ensures DecisionOf(cfg, Run(cfg, trace[..j]), trace[j]).None? {
          if j < n { assert trace[..j] == before[..j]; }
        }
      }
    }
  }

  lemma {:induction false} StandingIsAccepted(cfg: GateConfig, trace: seq<GateEvent>, k: nat)
    requires Stands(cfg, trace, k)
    ensures k < |trace| && trace[k].GgaReceived?
    ensures Run(cfg, trace).lastAccepted && Run(cfg, trace).lastGgaStamp == Some(trace[k].stamp)
  {
    hide Step, DecisionOf;
    var n := |trace| - 1;
    StepDecides(cfg, Run(cfg, trace[..n]), trace[n]);
    if k < n {
      var before := trace[..n];
      assert trace[..k] == before[..k];
      forall j | k < j < n ensures DecisionOf(cfg, Run(cfg, before[..j]), before[j]).None? {
        assert trace[..j] == before[..j];
      }
      StandingIsAccepted(cfg, before, k);
    }
  }

  /**
    * A check takes a fix back exactly when one stands and its age is outside the window: as a
    * clock reset if it is from the future, else as a timeout.
    */
  lemma ExpiresExactly(cfg: GateConfig, trace: seq<GateEvent>, now: real)
    ensures var d := DecisionOf(cfg, Run(cfg, trace), Expire(now));
            && (d.Some? <==> exists k: nat :: Stands(cfg, trace, k) && !InWindow(trace[k].stamp, now, cfg.fixTimeout))
            && (d.Some? ==>
                  && !d.value.accepted && d.value.stamp == now && d.value.orientation.None? && d.value.variances.None?
                  && forall k: nat :: Stands(cfg, trace, k) ==>
                       d.value.reason == if now < trace[k].stamp - 0.000000001 then "clock_reset" else "timeout")
  {
    hide Run, Stands;
    var found := StandingFix(cfg, trace);
    forall k: nat | Stands(cfg, trace, k)
      ensures k < |trace| && trace[k].GgaReceived?
      ensures Run(cfg, trace).lastAccepted && Run(cfg, trace).lastGgaStamp == Some(trace[k].stamp)
    {
      StandingIsAccepted(cfg, trace, k);
    }
  }

  /** At most one expiry per accepted streak: between two there is a newly accepted fix. */
  lemma ExpiresOncePerStreak(cfg: GateConfig, trace: seq<GateEvent>, i: nat, j: nat) returns (k: nat)
    requires i < j < |trace| && trace[i].Expire? && trace[j].Expire?
    requires DecisionOf(cfg, Run(cfg, trace[..i]), trace[i]).Some? && DecisionOf(cfg, Run(cfg, trace[..j]), trace[j]).Some?
    ensures i < k < j && trace[k].GgaReceived? && DecisionOf(cfg, Run(cfg, trace[..k]), trace[k]).value.accepted
  {
    var t := trace[..j];
    k := StandingFix(cfg, t);
    assert Stands(cfg, t, k) && t[..k] == trace[..k];
    assert t[..i] == trace[..i] && t[i] == trace[i];
  }

  // ----- the gate object

  class NmeaGnssGate {
    const cfg: GateConfig
    var orientation: Option<Orientation>
    var headingRejectionReason: string
    var gst: Option<Gst>
    var gstStamp: Option<real>
    var lastGgaStamp: Option<real>
    var lastDecisionAccepted: bool

    function State(): Gate
      reads this
    {
      Gate(orientation, headingRejectionReason, gst, gstStamp, lastGgaStamp, lastDecisionAccepted)
    }

    constructor (cfg: GateConfig)
      requires cfg.headingMaxAge >= 0.0 && cfg.gstMaxAge >= 0.0 && cfg.fixTimeout > 0.0
      ensures this.cfg == cfg && State() == CLOSED
    {
      this.cfg := cfg;
      orientation, headingRejectionReason, gst, gstStamp := None, "heading_missing", None, None;
      lastGgaStamp, lastDecisionAccepted := None, false;
    }

    method AcceptHeading(heading: real, stamp: real)
      modifies this
      ensures State() == Step(cfg, old(State()), HeadingAccepted(heading, stamp))
    {
      orientation := Some(Orientation(stamp, cfg.yawOf(heading)));
      headingRejectionReason := "";
    }

    method RejectHeading(reason: string)
      requires reason != ""
      modifies this
      ensures State() == Step(cfg, old(State()), HeadingRejected(reason))
    {
      orientation := None;
      headingRejectionReason := reason;
    }

    method AcceptGst(sample: Gst, stamp: real)
      modifies this
      ensures State() == Step(cfg, old(State()), GstAccepted(sample, stamp))
    {
      gst := Some(sample);
      gstStamp := Some(stamp);
    }

    method RejectGst()
      modifies this
      ensures State() == Step(cfg, old(State()), GstRejected)
    {
      gst := None;
      gstStamp := None;
    }

    method AcceptGga(gga: Gga, stamp: real) returns (d: Decision)
      modifies this
      ensures State() == Step(cfg, old(State()), GgaReceived(gga, stamp))
      ensures Some(d) == DecisionOf(cfg, old(State()), GgaReceived(gga, stamp))
    {
      lastGgaStamp := Some(stamp);
      lastDecisionAccepted := false;
      var rtkState := UsableQuality(gga.quality);
      if rtkState.None? {
        return Rejected(gga, stamp, QualityText(gga.quality));
      }
      if gga.latitude.None? || gga.longitude.None? || gga.altitude.None? {
        return Rejected(gga, stamp, "position_missing");
      }
      if orientation.None? {
        return Rejected(gga, stamp, headingRejectionReason);
      }
      if !IsFresh(orientation.value.stamp, stamp, cfg.headingMaxAge) {
        return Rejected(gga, stamp, "heading_stale");
      }
      if gst.None? || gstStamp.None? {
        return Rejected(gga, stamp, "covariance_missing");
      }
      if !IsFresh(gstStamp.value, stamp, cfg.gstMaxAge) {
        return Rejected(gga, stamp, "covariance_stale");
      }
      lastDecisionAccepted := true;
      var variances :=
        Variances(Square(gst.value.longitude), Square(gst.value.latitude), Square(gst.value.altitude));
      return Decision(stamp, gga, true, rtkState.value, orientation, Some(variances));
    }

    method RejectGga(stamp: real, reason: string) returns (d: Decision)
      requires reason != ""
      modifies this
      ensures State() == Step(cfg, old(State()), GgaRejected(stamp, reason))
      ensures Some(d) == DecisionOf(cfg, old(State()), GgaRejected(stamp, reason))
    {
      lastGgaStamp := Some(stamp);
      lastDecisionAccepted := false;
      return Rejected(NO_GGA, stamp, reason);
    }

    method ExpireFix(now: real) returns (d: Option<Decision>)
      modifies this
      ensures State() == Step(cfg, old(State()), Expire(now)) && d == DecisionOf(cfg, old(State()), Expire(now))
    {
      if !lastDecisionAccepted || lastGgaStamp.None? {
        return None;
      }
      var age := now - lastGgaStamp.value;
      var reason := "timeout";
      if age < -TIME_EPSILON {
        reason := "clock_reset";
      } else if age <= cfg.fixTimeout + TIME_EPSILON {
        return None;
      }
      var rejected := RejectGga(now, reason);
      return Some(rejected);
    }
  }
}
