/** The telemetry in the chassis history is the decoding of the bytes that were read, however they arrived. */
module ChassisStream {
  import opened SerialProtocol
  import FeedbackDecoder
  import opened VehicleState
  import opened ChassisJournal
  import opened ChassisMachine

  /** The status words of the telemetry in a history. */
  function Words(j: Journal): seq<int> {
    if j == [] then []
    else Words(j[..|j| - 1]) + if j[|j| - 1].Telemetry? then [j[|j| - 1].status.word] else []
  }

  function WordsOf(frames: seq<ChassisFeedback>): seq<int> {
    seq(|frames|, i requires 0 <= i < |frames| => frames[i].statusBits)
  }

  /** The undecided bytes are untouched, or all of them counted as discarded. */
  predicate Accounts(s: Chassis, t: Chassis) {
    || (t.buffer == s.buffer && t.stats == s.stats)
    || (t.buffer == [] && t.stats == s.stats.(discardedBytes := s.stats.discardedBytes + |s.buffer|))
  }

  /** From `s` to `t` these words were logged, and if the port is still open its undecided bytes are untouched. */
  predicate Adds(s: Chassis, t: Chassis, words: seq<int>) {
    && Words(t.journal) == Words(s.journal) + words && Accounts(s, t)
    && (t.open ==> s.open && t.buffer == s.buffer && t.stats == s.stats)
  }

  lemma Logs(s: Chassis, t: Chassis, e: Entry, words: seq<int>)
    requires t.journal == s.journal + [e] && words == if e.Telemetry? then [e.status.word] else []
    requires Accounts(s, t) && (t.open ==> s.open && t.buffer == s.buffer && t.stats == s.stats)
    ensures Adds(s, t, words)
  {
    assert t.journal[..|t.journal| - 1] == s.journal;
  }

  lemma Same(s: Chassis, t: Chassis)
    requires t.journal == s.journal && t.open == s.open && t.buffer == s.buffer && t.stats == s.stats
    ensures Adds(s, t, [])
  {
  }

  lemma Chain(s: Chassis, t: Chassis, u: Chassis, first: seq<int>, second: seq<int>)
    requires Adds(s, t, first) && Adds(t, u, second)
    ensures Adds(s, u, first + second)
    ensures first == [] ==> Adds(s, u, second)
    ensures second == [] ==> Adds(s, u, first)
  {
    assert (Words(s.journal) + first) + second == Words(s.journal) + (first + second);
    assert first == [] ==> first + second == second;
    assert second == [] ==> first + second == first;
  }

  lemma CloseAdds(s: Chassis)
    ensures Adds(s, CloseSerial(s), [])
  {
    if s.open { Logs(s, CloseSerial(s), Closed, []); } else { Same(s, CloseSerial(s)); }
  }

  lemma WriteAdds(cfg: Config, link: Link, s: Chassis, sent: Entry)
    requires !sent.Telemetry?
    ensures Adds(s, WriteFrame(cfg, link, s, sent).0, [])
  {
    hide Adds, Delivers, CloseSerial, Attempt, Log;
    Unchanged(s);
    TriedAdds(s);
    SentAdds(s, sent);
    CloseAdds(Attempt(s));
    Chain(s, Attempt(s), CloseSerial(Attempt(s)), [], []);
  }

  lemma Unchanged(s: Chassis)
    ensures Adds(s, s, [])
  {
  }

  lemma TriedAdds(s: Chassis)
    ensures Adds(s, Attempt(s), [])
  {
    hide Adds;
    Same(s, Attempt(s));
  }

  lemma SentAdds(s: Chassis, sent: Entry)
    requires !sent.Telemetry?
    ensures Adds(s, Log(Attempt(s), sent), [])
  {
    hide Adds;
    Logs(s, Log(Attempt(s), sent), sent, []);
  }

  lemma StopAdds(cfg: Config, link: Link, s: Chassis)
    ensures Adds(s, SendStop(cfg, link, s).0, [])
  {
    hide WriteFrame, Words;
    WriteAdds(cfg, link, s, StopSent);
  }

  lemma LatchAdds(cfg: Config, link: Link, s: Chassis)
    ensures Adds(s, Latch(cfg, link, s), [])
  {
    hide Adds, SendStop;
    var latched := MarkLatched(s);
    Logs(s, latched, StopLatched, []);
    StopAdds(cfg, link, latched);
    Chain(s, latched, SendStop(cfg, link, latched).0, [], []);
  }

  lemma LatchIfDrivingAdds(cfg: Config, link: Link, s: Chassis, condition: bool)
    ensures Adds(s, LatchIfDriving(cfg, link, s, condition), [])
  {
    hide Adds, Latch;
    LatchAdds(cfg, link, s);
    Unchanged(s);
  }

  lemma SeenAdds(s: Chassis, status: Status)
    ensures Adds(s, SeeTelemetry(s, status), [status.word])
  {
    hide Adds;
    Logs(s, SeeTelemetry(s, status), Entry.Telemetry(status), [status.word]);
  }

  lemma NotedAdds(s: Chassis, status: Status)
    ensures Adds(s, NoteStatus(s, status), [])
  {
    hide Adds;
    Same(s, NoteStatus(s, status));
  }

  lemma CheckAdds(cfg: Config, link: Link, s: Chassis, status: Status, velocity: VelocityState)
    ensures Adds(s, CheckFeedback(cfg, link, s, status, velocity), [status.word])
  {
    hide Adds, LatchIfDriving, SeeTelemetry, NoteStatus;
    var seen := SeeTelemetry(s, status);
    SeenAdds(s, status);
    LatchIfDrivingAdds(cfg, link, seen, velocity == Inconsistent);
    var checked := LatchIfDriving(cfg, link, seen, velocity == Inconsistent);
    Chain(s, seen, checked, [status.word], []);
    NotedAdds(checked, status);
    var noted := NoteStatus(checked, status);
    Chain(s, checked, noted, [status.word], []);
    LatchIfDrivingAdds(cfg, link, noted, status.rcInputFault);
    Chain(s, noted, LatchIfDriving(cfg, link, noted, status.rcInputFault), [status.word], []);
  }

  lemma ClearAdds(cfg: Config, link: Link, s: Chassis)
    ensures var (t, ok) := TransmitClearFault(cfg, link, s); Adds(s, NoteClear(t, ok), [])
  {
    hide WriteFrame, Words;
    WriteAdds(cfg, link, s, ClearSent);
  }

  lemma HandshakeAdds(cfg: Config, link: Link, s: Chassis, status: Status)
    ensures Adds(s, StepHandshake(cfg, link, s, status), [])
  {
    hide Adds, Latch, TransmitClearFault;
    ClearAdds(cfg, link, s);
    LatchAdds(cfg, link, s);
    Unchanged(s);
    Same(s, ResetHandshake(s));
  }

  lemma HallAdds(s: Chassis, hall: HallState)
    ensures Adds(s, s.(hall := hall), [])
  {
    hide Adds;
    Same(s, s.(hall := hall));
  }

  lemma WatchAdds(cfg: Config, link: Link, s: Chassis, status: Status, velocity: VelocityState, nowMs: int)
    ensures Adds(s, WatchHall(cfg, link, s, status, velocity, nowMs), [])
  {
    hide Adds, Latch, ObserveHall, HallBlocked;
    var hall := ObserveHall(s.hall, velocity == MeasuredMotion, nowMs, cfg.hallTimeouts).0;
    HallAdds(s, HALL_IDLE);
    HallAdds(s, hall);
    var seen := s.(hall := hall);
    LatchAdds(cfg, link, seen);
    Chain(s, seen, Latch(cfg, link, seen), [], []);
  }

  lemma FeedbackAdds(cfg: Config, link: Link, s: Chassis, f: ChassisFeedback, nowMs: int)
    ensures Adds(s, OnFeedback(cfg, link, s, f, nowMs), [f.statusBits])
  {
    hide Adds, CheckFeedback, StepHandshake, WatchHall, Bit;
    var status := ReadStatus(f.statusBits);
    var velocity := VelocityFeedback(status, f.hallSpeed);
    var checked := CheckFeedback(cfg, link, s, status, velocity);
    var stepped := StepHandshake(cfg, link, checked, status);
    CheckAdds(cfg, link, s, status, velocity);
    HandshakeAdds(cfg, link, checked, status);
    WatchAdds(cfg, link, stepped, status, velocity, nowMs);
    Chain(s, checked, stepped, [f.statusBits], []);
    Chain(s, stepped, WatchHall(cfg, link, stepped, status, velocity, nowMs), [f.statusBits], []);
  }

  lemma {:induction false} BatchAdds(cfg: Config, link: Link, s: Chassis, frames: seq<ChassisFeedback>, nowMs: int)
    ensures Adds(s, OnBatch(cfg, link, s, frames, nowMs), WordsOf(frames))
    decreases |frames|
  {
    hide Adds, OnFeedback;
    if frames == [] {
      Unchanged(s);
    } else {
      var n := |frames| - 1;
      BatchAdds(cfg, link, s, frames[..n], nowMs);
      var done := OnBatch(cfg, link, s, frames[..n], nowMs);
      FeedbackAdds(cfg, link, done, frames[n], nowMs);
      Chain(s, done, OnFeedback(cfg, link, done, frames[n], nowMs), WordsOf(frames[..n]), [frames[n].statusBits]);
      assert WordsOf(frames) == WordsOf(frames[..n]) + [frames[n].statusBits];
    }
  }

  /** The bytes of a sequence of read answers. */
  function Received(answers: seq<ReadStep>): seq<Byte> {
    if answers == [] then []
    else (if answers[0].Data? then answers[0].bytes else []) + Received(answers[1..])
  }

  /**
    * Reads that leave the port open log the words of exactly the frames that one scan of the
    * undecided bytes and everything read would emit, and keep what that scan leaves undecided.
    */
  lemma {:induction false} ReadDecodesStream(cfg: Config, link: Link, s: Chassis, answers: seq<ReadStep>)
    requires s.open && FeedbackDecoder.Undecided(s.buffer)
    ensures var t, whole := ReadSerial(cfg, link, s, answers), FeedbackDecoder.Scan(s.buffer + Received(answers));
            t.open ==>
              && Words(t.journal) == Words(s.journal) + WordsOf(whole.frames)
              && t.buffer == whole.rest && t.stats == s.stats.Plus(whole.stats)
    decreases |answers|
  {
    hide OnBatch, CloseSerial, FeedbackDecoder.Scan, Words;
    var t := ReadSerial(cfg, link, s, answers);
    if answers == [] {
      assert s.buffer + [] == s.buffer;
      NothingScanned(s.buffer);
      assert Words(s.journal) + [] == Words(s.journal);
      FeedbackDecoder.PlusZero(s.stats);
    } else if answers[0].Data? {
      var bytes, nowMs := answers[0].bytes, answers[0].nowMs;
      DataDecodes(cfg, link, s, bytes, nowMs);
      var next := OnData(cfg, link, s, bytes, nowMs);
      assert s.buffer + Received(answers) == (s.buffer + bytes) + Received(answers[1..]);
      FeedbackDecoder.ScanSplits(s.buffer + bytes, Received(answers[1..]));
      FeedbackDecoder.Conservation(s.buffer + bytes);
      if next.open {
        ReadDecodesStream(cfg, link, next, answers[1..]);
        var first := FeedbackDecoder.Scan(s.buffer + bytes);
        var second := FeedbackDecoder.Scan(first.rest + Received(answers[1..]));
        WordsJoin(first.frames, second.frames);
        FeedbackDecoder.PlusAssociative(s.stats, first.stats, second.stats);
        assert (Words(s.journal) + WordsOf(first.frames)) + WordsOf(second.frames)
            == Words(s.journal) + (WordsOf(first.frames) + WordsOf(second.frames));
      }
    } else if answers[0].ReadInterrupted? {
      assert Received(answers) == Received(answers[1..]);
      ReadDecodesStream(cfg, link, s, answers[1..]);
    } else {
      ClosedIsShut(s);
    }
  }

  lemma DataDecodes(cfg: Config, link: Link, s: Chassis, bytes: seq<Byte>, nowMs: int)
    requires s.open
    ensures var t, whole := OnData(cfg, link, s, bytes, nowMs), FeedbackDecoder.Scan(s.buffer + bytes);
            t.open ==>
              && Words(t.journal) == Words(s.journal) + WordsOf(whole.frames)
              && t.buffer == whole.rest && t.stats == s.stats.Plus(whole.stats)
  {
    hide OnBatch, FeedbackDecoder.Scan, Words;
    BatchAdds(cfg, link, Absorb(s, bytes), FeedbackDecoder.Scan(s.buffer + bytes).frames, nowMs);
  }

  lemma NothingScanned(rest: seq<Byte>)
    requires FeedbackDecoder.Undecided(rest)
    ensures FeedbackDecoder.Scan(rest) == FeedbackDecoder.Outcome([], rest, FeedbackDecoder.NO_STATS)
  {
  }

  lemma WordsJoin(a: seq<ChassisFeedback>, b: seq<ChassisFeedback>)
    ensures WordsOf(a + b) == WordsOf(a) + WordsOf(b)
  {
  }

  lemma ClosedIsShut(s: Chassis)
    ensures !CloseSerial(s).open
  {
  }

  // ----- conservation at the port

  /** Bytes in decoded frames, discarded bytes and undecided bytes. */
  function Total(s: Chassis): nat {
    24 * s.stats.validFrames + s.stats.discardedBytes + |s.buffer|
  }

  /**
    * However a read ends, every byte it read is accounted for: in a decoded frame, counted as
    * discarded, or still undecided. Only a read that closes the port leaves answers unread.
    */
  lemma {:induction false} BytesAccounted(cfg: Config, link: Link, s: Chassis, answers: seq<ReadStep>) returns (k: nat)
    requires s.open
    ensures var t := ReadSerial(cfg, link, s, answers);
            && k <= |answers| && Total(t) == Total(s) + |Received(answers[..k])| && (t.open ==> k == |answers|)
    decreases |answers|
  {
    hide OnData, CloseSerial, Total;
    k := 0;
    if answers != [] {
      var rest := answers[1..];
      if answers[0].Data? {
        var next := OnData(cfg, link, s, answers[0].bytes, answers[0].nowMs);
        DataAccounted(cfg, link, s, answers[0].bytes, answers[0].nowMs);
        if next.open { k := BytesAccounted(cfg, link, next, rest); }
      } else if answers[0].ReadInterrupted? {
        k := BytesAccounted(cfg, link, s, rest);
      } else {
        CloseAccounted(s);
      }
      assert answers[..k + 1][0] == answers[0] && answers[..k + 1][1..] == rest[..k];
      k := k + 1;
    }
  }

  lemma DataAccounted(cfg: Config, link: Link, s: Chassis, bytes: seq<Byte>, nowMs: int)
    ensures Total(OnData(cfg, link, s, bytes, nowMs)) == Total(s) + |bytes|
  {
    hide OnBatch, FeedbackDecoder.Scan, Words;
    BatchAdds(cfg, link, Absorb(s, bytes), FeedbackDecoder.Scan(s.buffer + bytes).frames, nowMs);
    FeedbackDecoder.Conservation(s.buffer + bytes);
  }

  lemma CloseAccounted(s: Chassis)
    ensures Total(CloseSerial(s)) == Total(s) && !CloseSerial(s).open
  {
  }
}
