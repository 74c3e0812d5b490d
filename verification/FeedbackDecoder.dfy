/**
  * The resynchronising feedback decoder. `Scan` is its meaning on a whole byte string;
  * the class keeps the source's mutable buffer and statistics and is proved to compute it.
  */
module FeedbackDecoder {
  import opened SerialProtocol

  datatype Stats = Stats(validFrames: nat, bccErrors: nat, tailErrors: nat, protocolErrors: nat, discardedBytes: nat) {
    function Plus(other: Stats): Stats {
      Stats(validFrames + other.validFrames, bccErrors + other.bccErrors, tailErrors + other.tailErrors,
            protocolErrors + other.protocolErrors, discardedBytes + other.discardedBytes)
    }
  }

  const NO_STATS := Stats(0, 0, 0, 0, 0)

  lemma PlusAssociative(a: Stats, b: Stats, c: Stats)
    ensures a.Plus(b).Plus(c) == a.Plus(b.Plus(c))
  {
  }

  /** What scanning a byte string yields: decoded frames, undecided bytes, statistics. */
  datatype Outcome = Outcome(frames: seq<ChassisFeedback>, rest: seq<Byte>, stats: Stats)

  /** `first` followed by `second`, which scanned the bytes `first` left undecided. */
  function Then(first: Outcome, second: Outcome): Outcome {
    Outcome(first.frames + second.frames, second.rest, first.stats.Plus(second.stats))
  }

  /** Nothing left to decide: no bytes, or a frame head with too few bytes after it. */
  predicate Undecided(buffer: seq<Byte>) {
    buffer == [] || (buffer[0] == FRAME_HEAD && |buffer| < FEEDBACK_SIZE)
  }

  /** One decision about the front of the buffer, and how many bytes it consumes. */
  datatype Decision = Decision(made: Outcome, consumed: nat)

  function Drop(n: nat, error: Stats): Decision {
    Decision(Outcome([], [], error.(discardedBytes := n)), n)
  }

  function DecideWindow(w: seq<Byte>): (d: Decision)
    requires |w| == FEEDBACK_SIZE && w[0] == FRAME_HEAD
    ensures d.consumed == if WellFramed(w) then FEEDBACK_SIZE else 1
    ensures d.made.frames == if WellFormed(w) then [DecodeFeedback(w).value] else []
    ensures d.made.stats.validFrames == |d.made.frames| && d.made.rest == []
    ensures d.made.stats.discardedBytes == if WellFormed(w) then 0 else d.consumed
    ensures d.made.stats.tailErrors == if w[23] != 0x7D then 1 else 0
    ensures d.made.stats.bccErrors == if w[23] == 0x7D && w[22] != Bcc(w[..22]) then 1 else 0
    ensures d.made.stats.protocolErrors == if WellFramed(w) && w[21] != 0xA1 then 1 else 0
  {
    if w[23] != FRAME_TAIL then Drop(1, NO_STATS.(tailErrors := 1))
    else if w[22] != Bcc(w[..22]) then Drop(1, NO_STATS.(bccErrors := 1))
    else if w[21] != TELEMETRY_PROTOCOL_ID then Drop(FEEDBACK_SIZE, NO_STATS.(protocolErrors := 1))
    else Decision(Outcome([DecodeFeedback(w).value], [], NO_STATS.(validFrames := 1)), FEEDBACK_SIZE)
  }

  function Decide(s: seq<Byte>): Decision
    requires !Undecided(s)
  {
    if s[0] != FRAME_HEAD then Drop(1, NO_STATS) else DecideWindow(s[..FEEDBACK_SIZE])
  }

  function Scan(s: seq<Byte>): Outcome
    decreases |s|
  {
    if Undecided(s) then Outcome([], s, NO_STATS)
    else Then(Decide(s).made, Scan(s[Decide(s).consumed..]))
  }

  // ----- confluence: cutting the stream does not matter

  lemma ThenAssociative(a: Outcome, b: Outcome, c: Outcome)
    ensures Then(Then(a, b), c) == Then(a, Then(b, c))
  {
    assert (a.frames + b.frames) + c.frames == a.frames + (b.frames + c.frames);
  }

  lemma NothingThen(rest: seq<Byte>, b: Outcome)
    ensures Then(Outcome([], rest, NO_STATS), b) == b
  {
    assert [] + b.frames == b.frames;
  }

  /** More bytes after it never change a decision. */
  lemma DecisionIsLocal(a: seq<Byte>, b: seq<Byte>)
    requires !Undecided(a)
    ensures !Undecided(a + b) && Decide(a + b) == Decide(a)
  {
    if a[0] == FRAME_HEAD {
      assert (a + b)[..FEEDBACK_SIZE] == a[..FEEDBACK_SIZE];
    }
  }

  lemma {:induction false} ScanSplits(a: seq<Byte>, b: seq<Byte>)
    ensures Scan(a + b) == Then(Scan(a), Scan(Scan(a).rest + b))
    decreases |a|
  {
    if Undecided(a) {
      NothingThen(a, Scan(a + b));
    } else {
      DecisionIsLocal(a, b);
      var d := Decide(a);
      assert (a + b)[d.consumed..] == a[d.consumed..] + b;
      ScanSplits(a[d.consumed..], b);
      ThenAssociative(d.made, Scan(a[d.consumed..]), Scan(Scan(a).rest + b));
    }
  }

  function Flatten(chunks: seq<seq<Byte>>): seq<Byte> {
    if chunks == [] then [] else Flatten(chunks[..|chunks| - 1]) + chunks[|chunks| - 1]
  }

  /** Successive appends: each scans what the previous one left, followed by its chunk. */
  function Feed(chunks: seq<seq<Byte>>): Outcome {
    if chunks == [] then Outcome([], [], NO_STATS)
    else
      var before := Feed(chunks[..|chunks| - 1]);
      Then(before, Scan(before.rest + chunks[|chunks| - 1]))
  }

  lemma {:induction false} Confluence(chunks: seq<seq<Byte>>)
    ensures Feed(chunks) == Scan(Flatten(chunks))
  {
    if chunks != [] {
      Confluence(chunks[..|chunks| - 1]);
      ScanSplits(Flatten(chunks[..|chunks| - 1]), chunks[|chunks| - 1]);
    }
  }

  // ----- conservation, and the shape of the undecided bytes

  /** Every byte received is in a decoded frame, counted as discarded, or still buffered. */
  lemma {:induction false} Conservation(s: seq<Byte>)
    ensures Undecided(Scan(s).rest)
    ensures |s| == FEEDBACK_SIZE * Scan(s).stats.validFrames + Scan(s).stats.discardedBytes + |Scan(s).rest|
    ensures |Scan(s).frames| == Scan(s).stats.validFrames
    decreases |s|
  {
    if !Undecided(s) {
      Conservation(s[Decide(s).consumed..]);
    }
  }

  // ----- completeness: exactly the greedy leftmost disjoint windows

  predicate FramedAt(s: seq<Byte>, p: nat) {
    p + FEEDBACK_SIZE <= |s| && WellFramed(s[p..p + FEEDBACK_SIZE])
  }

  ghost predicate Covered(ps: seq<nat>, q: nat) {
    exists k :: 0 <= k < |ps| && ps[k] <= q < ps[k] + FEEDBACK_SIZE
  }

  /**
    * `ps` picks framed windows from `p` on, disjoint and in order, such that every framed
    * window starts inside a picked one that starts no later.
    */
  ghost predicate Greedy(s: seq<Byte>, p: nat, ps: seq<nat>) {
    && (forall k :: 0 <= k < |ps| ==> p <= ps[k] && FramedAt(s, ps[k]))
    && (forall k, l :: 0 <= k < l < |ps| ==> ps[k] + FEEDBACK_SIZE <= ps[l])
    && (forall q: nat {:trigger Covered(ps, q)} :: p <= q && FramedAt(s, q) ==> Covered(ps, q))
  }

  /** The picked windows that also carry the telemetry protocol id, decoded. */
  function DecodeWindows(s: seq<Byte>, ps: seq<nat>): seq<ChassisFeedback> {
    if ps == [] then [] else DecodeAt(s, ps[0]) + DecodeWindows(s, ps[1..])
  }

  function DecodeAt(s: seq<Byte>, p: nat): seq<ChassisFeedback> {
    if FramedAt(s, p) && WellFormed(s[p..p + FEEDBACK_SIZE])
    then [DecodeFeedback(s[p..p + FEEDBACK_SIZE]).value] else []
  }

  /**
    * Whatever greedy choice of windows one makes on the stream, the frames emitted are
    * those windows: the choice is unique and the decoder makes it.
    */
  lemma {:induction false} EmitsGreedyWindows(s: seq<Byte>, p: nat, ps: seq<nat>)
    requires p <= |s| && Greedy(s, p, ps)
    ensures Scan(s[p..]).frames == DecodeWindows(s, ps)
    decreases |s| - p
  {
    hide Greedy, FramedAt, DecodeAt;
    var t := s[p..];
    if Undecided(t) {
      GreedyEnds(s, p, ps);
    } else {
      var n := Decide(t).consumed;
      DecideAt(s, p);
      assert t[n..] == s[p + n..];
      if FramedAt(s, p) {
        GreedyTail(s, p, ps);
        assert DecodeWindows(s, ps) == DecodeAt(s, p) + DecodeWindows(s, ps[1..]);
        EmitsGreedyWindows(s, p + n, ps[1..]);
      } else {
        GreedySkip(s, p, ps);
        assert DecodeAt(s, p) == [] by { NotFramed(s, p); }
        EmitsGreedyWindows(s, p + n, ps);
      }
    }
  }

  lemma DecideAt(s: seq<Byte>, p: nat)
    requires p <= |s| && !Undecided(s[p..])
    ensures Decide(s[p..]).consumed == if FramedAt(s, p) then FEEDBACK_SIZE else 1
    ensures Decide(s[p..]).made.frames == DecodeAt(s, p)
  {
    if p + FEEDBACK_SIZE <= |s| {
      assert s[p..][..FEEDBACK_SIZE] == s[p..p + FEEDBACK_SIZE];
    }
  }

  lemma NotFramed(s: seq<Byte>, p: nat)
    requires !FramedAt(s, p)
    ensures DecodeAt(s, p) == []
  {
  }

  lemma GreedyEnds(s: seq<Byte>, p: nat, ps: seq<nat>)
    requires p <= |s| && Greedy(s, p, ps) && Undecided(s[p..])
    ensures ps == []
  {
    assert ps != [] ==> FramedAt(s, ps[0]);
  }

  lemma GreedySkip(s: seq<Byte>, p: nat, ps: seq<nat>)
    requires Greedy(s, p, ps) && !FramedAt(s, p)
    ensures Greedy(s, p + 1, ps)
  {
    forall k | 0 <= k < |ps| ensures p + 1 <= ps[k] && FramedAt(s, ps[k]) {
      assert p <= ps[k] && FramedAt(s, ps[k]);
    }
  }

  lemma GreedyTail(s: seq<Byte>, p: nat, ps: seq<nat>)
    requires Greedy(s, p, ps) && FramedAt(s, p)
    ensures ps != [] && ps[0] == p && Greedy(s, p + FEEDBACK_SIZE, ps[1..])
  {
    assert Covered(ps, p);
    var first :| 0 <= first < |ps| && ps[first] <= p < ps[first] + FEEDBACK_SIZE;
    assert p <= ps[0] && p <= ps[first];
    var tail := ps[1..];
    forall k | 0 <= k < |tail| ensures p + FEEDBACK_SIZE <= tail[k] && FramedAt(s, tail[k]) {
      assert tail[k] == ps[k + 1] && FramedAt(s, ps[k + 1]);
    }
    forall q: nat {:trigger Covered(tail, q)} | p + FEEDBACK_SIZE <= q && FramedAt(s, q)
      ensures Covered(tail, q)
    {
      assert Covered(ps, q);
      var k :| 0 <= k < |ps| && ps[k] <= q < ps[k] + FEEDBACK_SIZE;
      assert tail[k - 1] == ps[k];
    }
  }

  /** The greedy choice always exists, so the previous lemma covers every stream. */
  lemma {:induction false} GreedyExists(s: seq<Byte>, p: nat) returns (ps: seq<nat>)
    ensures Greedy(s, p, ps)
    decreases |s| - p
  {
    if p + FEEDBACK_SIZE > |s| {
      ps := [];
    } else if FramedAt(s, p) {
      var tail := GreedyExists(s, p + FEEDBACK_SIZE);
      ps := [p] + tail;
      GreedyCons(s, p, tail);
    } else {
      ps := GreedyExists(s, p + 1);
      assert forall k :: 0 <= k < |ps| ==> p + 1 <= ps[k] && FramedAt(s, ps[k]);
    }
  }

  lemma GreedyCons(s: seq<Byte>, p: nat, tail: seq<nat>)
    requires FramedAt(s, p) && Greedy(s, p + FEEDBACK_SIZE, tail)
    ensures Greedy(s, p, [p] + tail)
  {
    var ps := [p] + tail;
    forall k | 0 <= k < |ps| ensures p <= ps[k] && FramedAt(s, ps[k]) {
      if 0 < k { assert ps[k] == tail[k - 1] && FramedAt(s, tail[k - 1]); }
    }
    forall q: nat {:trigger Covered(ps, q)} | p <= q && FramedAt(s, q)
      ensures Covered(ps, q)
    {
      if q < p + FEEDBACK_SIZE {
        assert ps[0] <= q;
      } else {
        assert Covered(tail, q);
        var k :| 0 <= k < |tail| && tail[k] <= q < tail[k] + FEEDBACK_SIZE;
        assert ps[k + 1] == tail[k];
      }
    }
  }

  function DecodeAll(frames: seq<seq<Byte>>): seq<ChassisFeedback>
    requires forall i :: 0 <= i < |frames| ==> WellFormed(frames[i])
  {
    if frames == [] then []
    else
      assert WellFormed(frames[|frames| - 1]);
      DecodeAll(frames[..|frames| - 1]) + [DecodeFeedback(frames[|frames| - 1]).value]
  }

  /** Line noise without a frame head costs its own bytes and none of the frames after it. */
  lemma {:induction false} JunkThenFrames(junk: seq<Byte>, frames: seq<seq<Byte>>)
    requires FRAME_HEAD !in junk
    requires forall i :: 0 <= i < |frames| ==> WellFormed(frames[i])
    ensures Scan(junk + Flatten(frames)) ==
            Outcome(DecodeAll(frames), [], NO_STATS.(validFrames := |frames|, discardedBytes := |junk|))
  {
    hide Scan, WellFormed, DecodeFeedback;
    if frames == [] {
      assert junk + Flatten(frames) == junk;
      JunkDiscarded(junk);
    } else {
      var n := |frames| - 1;
      assert forall i :: 0 <= i < n ==> frames[..n][i] == frames[i];
      JunkThenFrames(junk, frames[..n]);
      var front := junk + Flatten(frames[..n]);
      assert junk + Flatten(frames) == front + frames[n];
      ScanSplits(front, frames[n]);
      assert [] + frames[n] == frames[n];
      assert WellFormed(frames[n]);
      FrameScans(frames[n]);
    }
  }

  lemma FrameScans(f: seq<Byte>)
    requires WellFormed(f)
    ensures Scan(f) == Outcome([DecodeFeedback(f).value], [], NO_STATS.(validFrames := 1))
  {
    assert f[..FEEDBACK_SIZE] == f && f[FEEDBACK_SIZE..] == [];
  }

  lemma {:induction false} JunkDiscarded(junk: seq<Byte>)
    requires FRAME_HEAD !in junk
    ensures Scan(junk) == Outcome([], [], NO_STATS.(discardedBytes := |junk|))
  {
    if junk != [] {
      JunkDiscarded(junk[1..]);
    }
  }

  function Dropped(n: nat): Outcome {
    Outcome([], [], NO_STATS.(discardedBytes := n))
  }

  lemma DropScans(s: seq<Byte>, header: nat)
    requires header <= |s| && FRAME_HEAD !in s[..header]
    ensures Scan(s) == Then(Dropped(header), Scan(s[header..]))
  {
    assert s == s[..header] + s[header..] && [] + s[header..] == s[header..];
    JunkDiscarded(s[..header]);
    ScanSplits(s[..header], s[header..]);
  }

  lemma PlusZero(s: Stats)
    ensures s.Plus(NO_STATS) == s
  {
  }

  lemma NothingLeft(done: Outcome, s: seq<Byte>)
    requires Undecided(s)
    ensures Then(done, Scan(s)) == Outcome(done.frames, s, done.stats)
  {
    PlusZero(done.stats);
    assert done.frames + [] == done.frames;
  }

  /** Loop progress: `done` then `next` accounts for what was scanned before `after`. */
  lemma Advance(start: Stats, done: Outcome, next: Outcome, after: Outcome)
    ensures Then(done, Then(next, after)) == Then(Then(done, next), after)
    ensures start.Plus(done.stats).Plus(next.stats) == start.Plus(Then(done, next).stats)
    ensures next.frames == [] ==> Then(done, next).frames == done.frames
  {
    ThenAssociative(done, next, after);
    PlusAssociative(start, done.stats, next.stats);
    if next.frames == [] { assert done.frames + [] == done.frames; }
  }

  // ----- the decoder object

  class FeedbackStreamDecoder {
    var buffer: seq<Byte>
    var stats: Stats

    constructor ()
      ensures buffer == [] && stats == NO_STATS
    {
      buffer, stats := [], NO_STATS;
    }

    /** Appends a chunk and emits every frame it completes. */
    method Append(data: seq<Byte>) returns (decoded: seq<ChassisFeedback>)
      modifies this
      ensures var outcome := Scan(old(buffer) + data);
              && decoded == outcome.frames && buffer == outcome.rest
              && stats == old(stats).Plus(outcome.stats)
    {
      buffer := buffer + data;
      decoded := [];
      var more := true;
      ghost var whole, done := Scan(buffer), Outcome([], [], NO_STATS);
      NothingThen([], whole);
      PlusZero(stats);
      while more
        invariant whole == Then(done, Scan(buffer))
        invariant decoded == done.frames
        invariant stats == old(stats).Plus(done.stats)
        invariant !more ==> Undecided(buffer)
        decreases more, |buffer|
      {
        var feedback;
        more, feedback, done := Round(old(stats), done);
        decoded := decoded + feedback;
      }
      NothingLeft(done, buffer);
    }

    /** One turn of the loop; `done` is what earlier turns made of the bytes before. */
    method Round(ghost start: Stats, ghost done: Outcome)
      returns (more: bool, feedback: seq<ChassisFeedback>, ghost now: Outcome)
      requires stats == start.Plus(done.stats)
      modifies this
      ensures Then(done, Scan(old(buffer))) == Then(now, Scan(buffer))
      ensures now.frames == done.frames + feedback && stats == start.Plus(now.stats)
      ensures if more then |buffer| < |old(buffer)| else Undecided(buffer)
    {
      var header := DropToHead();
      DropScans(old(buffer), header);
      Advance(start, done, Dropped(header), Scan(buffer));
      now := Then(done, Dropped(header));
      if |buffer| < FEEDBACK_SIZE {
        assert done.frames + [] == done.frames;
        return false, [], now;
      }
      ghost var before, d := now, Decide(buffer);
      more := true;
      feedback := DecodeFront();
      Advance(start, before, d.made, Scan(buffer));
      now := Then(before, d.made);
    }

    /** One round of checks on a buffer that starts with a frame head. */
    method DecodeFront() returns (feedback: seq<ChassisFeedback>)
      requires |buffer| >= FEEDBACK_SIZE && buffer[0] == FRAME_HEAD
      modifies this
      ensures var d := Decide(old(buffer));
              && feedback == d.made.frames && buffer == old(buffer)[d.consumed..]
              && stats == old(stats).Plus(d.made.stats)
    {
      feedback := [];
      assert buffer[..22] == buffer[..FEEDBACK_SIZE][..22];
      if buffer[23] != FRAME_TAIL {
        stats := stats.(tailErrors := stats.tailErrors + 1, discardedBytes := stats.discardedBytes + 1);
        buffer := buffer[1..];
        return;
      }
      var bcc := CalculateBcc(buffer, 22);
      if buffer[22] != bcc {
        stats := stats.(bccErrors := stats.bccErrors + 1, discardedBytes := stats.discardedBytes + 1);
        buffer := buffer[1..];
        return;
      }
      if buffer[21] != TELEMETRY_PROTOCOL_ID {
        stats := stats.(protocolErrors := stats.protocolErrors + 1,
                        discardedBytes := stats.discardedBytes + FEEDBACK_SIZE);
        buffer := buffer[FEEDBACK_SIZE..];
        return;
      }
      var decoded := DecodeFeedback(buffer[..FEEDBACK_SIZE]);
      if decoded.Some? {
        feedback := [decoded.value];
        stats := stats.(validFrames := stats.validFrames + 1);
      }
      buffer := buffer[FEEDBACK_SIZE..];
    }

    /** Discards everything before the first frame head (`std::find`, then an erase). */
    method DropToHead() returns (header: nat)
      modifies this
      ensures header <= |old(buffer)| && FRAME_HEAD !in old(buffer)[..header]
      ensures buffer == old(buffer)[header..] && (buffer == [] || buffer[0] == FRAME_HEAD)
      ensures stats == old(stats).Plus(Dropped(header).stats)
    {
      header := 0;
      while header < |buffer| && buffer[header] != FRAME_HEAD
        invariant header <= |buffer| && FRAME_HEAD !in buffer[..header]
      {
        header := header + 1;
      }
      stats := stats.(discardedBytes := stats.discardedBytes + header);
      buffer := buffer[header..];
    }

    method DiscardBuffer()
      modifies this
      ensures buffer == []
      ensures stats == old(stats).(discardedBytes := old(stats).discardedBytes + |old(buffer)|)
    {
      stats := stats.(discardedBytes := stats.discardedBytes + |buffer|);
      buffer := [];
    }
  }
}
