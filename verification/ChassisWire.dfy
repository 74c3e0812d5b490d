/** What the entries of the chassis history are on the wire, byte by byte. */
module ChassisWire {
  import opened Basics
  import opened SerialProtocol
  import opened ChassisJournal

  /** The frame an entry put on the wire, if it put one there. */
  function WireFrame(e: Entry): Option<seq<Byte>> {
    match SentCommand(e)
    case None => None
    case Some(command) => EncodeCommand(command)
  }

  /** A software stop: disabled, flag 0x80, no motion. */
  predicate IsStopFrame(frame: Option<seq<Byte>>) {
    frame == Some([0x7B, 0x01, 0x80, 0, 0, 0, 0, 0, 0, 0xFA, 0x7D])
  }

  /** A clear-fault request: disabled, flag 0x04, no motion. */
  predicate IsClearFrame(frame: Option<seq<Byte>>) {
    frame == Some([0x7B, 0x01, 0x04, 0, 0, 0, 0, 0, 0, 0x7E, 0x7D])
  }

  /** An enabled motion frame, flag 0x01, whose fields carry the speed and the steering angle. */
  predicate IsMotionFrame(frame: Option<seq<Byte>>, speed: Double, steering: Double) {
    && frame.Some? && |frame.value| == 11
    && frame.value[0] == 0x7B && frame.value[1] == 0x01 && frame.value[2] == 0x01
    && Carries(DecodeI16(frame.value[3], frame.value[4]), speed) && Carries(DecodeI16(frame.value[5], frame.value[6]), steering)
    && frame.value[7] == 0 && frame.value[8] == 0 && frame.value[9] == Bcc(frame.value[..9]) && frame.value[10] == 0x7D
  }

  /** The bytes of a disabled frame without motion, from its flags. */
  lemma StillFrame(c: ChassisCommand, flags: Byte, bcc: Byte)
    requires EncodeCommand(c).Some? && !(c.enable && !c.softwareStop)
    requires flags == (if c.enable then 0x01 else 0) + (if c.clearFault then 0x04 else 0) + (if c.softwareStop then 0x80 else 0)
    requires bcc == 0x7B ^ 0x01 ^ flags
    ensures EncodeCommand(c) == Some([0x7B, 0x01, flags, 0, 0, 0, 0, 0, 0, bcc, 0x7D])
  {
    hide EncodeCommand, Bcc;
    EncodeReadsBack(c);
    var f := EncodeCommand(c).value;
    HeadBcc(f[..9], flags);
    var frame: seq<Byte> := [0x7B, 0x01, flags, 0, 0, 0, 0, 0, 0, bcc, 0x7D];
    assert |f| == |frame| && f[9] == bcc && forall i :: 0 <= i < 11 ==> f[i] == frame[i];
    assert f == frame;
  }

  lemma HeadBcc(head: seq<Byte>, flags: Byte)
    requires |head| == 9 && head[0] == 0x7B && head[1] == 0x01 && head[2] == flags
    requires forall i :: 3 <= i < 9 ==> head[i] == 0
    ensures Bcc(head) == 0x7B ^ 0x01 ^ flags
  {
    hide Bcc;
    BccJoins(head[..3], head[3..]);
    BccJoins(head[..2], head[2..3]);
    BccJoins(head[..1], head[1..2]);
    assert head == head[..3] + head[3..] && head[..3] == head[..2] + head[2..3] && head[..2] == head[..1] + head[1..2];
    BccOfOne(head[0]);
    BccOfOne(head[1]);
    BccOfOne(head[2]);
    assert head[..1] == [head[0]] && head[1..2] == [head[1]] && head[2..3] == [head[2]];
    NoBcc(head[3..]);
    XorZero(Bcc(head[..3]));
  }

  lemma {:induction false} NoBcc(zeros: seq<Byte>)
    requires forall i :: 0 <= i < |zeros| ==> zeros[i] == 0
    ensures Bcc(zeros) == 0
  {
    if zeros != [] {
      NoBcc(zeros[..|zeros| - 1]);
    }
  }

  /** A stop entry is a stop frame, a clear-fault entry a clear-fault frame, and nothing else is either. */
  lemma EntriesOnWire(e: Entry)
    ensures e.StopSent? ==> IsStopFrame(WireFrame(e))
    ensures e.ClearSent? ==> IsClearFrame(WireFrame(e))
    ensures WireFrame(e).Some? ==> e.StopSent? || e.ClearSent? || e.MotionSent?
  {
    hide EncodeCommand;
    EncodeFailsExactly(SOFTWARE_STOP);
    EncodeFailsExactly(CLEAR_FAULT);
    StillFrame(SOFTWARE_STOP, 0x80, 0xFA);
    StillFrame(CLEAR_FAULT, 0x04, 0x7E);
  }

  /** A justified motion entry is an enabled motion frame of its command. */
  lemma MotionOnWire(cfg: Config, d: Summary, e: Entry)
    requires Justified(cfg, d, e) && e.MotionSent?
    ensures IsMotionFrame(WireFrame(e), e.command.speed, e.command.steering)
  {
    hide EncodeCommand;
    EncodeFailsExactly(e.command);
    EncodeReadsBack(e.command);
  }
}
