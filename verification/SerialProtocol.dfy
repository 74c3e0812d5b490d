/** The RC chassis wire format: 11-byte command frames and 24-byte feedback frames. */
module SerialProtocol {
  import opened Basics

  type Byte = bv8

  const FRAME_HEAD: Byte := 0x7B
  const FRAME_TAIL: Byte := 0x7D
  const ACKERMANN_COMMAND_ID: Byte := 0x01
  const FLAG_ENABLE: Byte := 0x01
  const FLAG_CLEAR_FAULT: Byte := 0x04
  const FLAG_SOFTWARE_STOP: Byte := 0x80
  const TELEMETRY_PROTOCOL_ID: Byte := 0xA1
  const COMMAND_SIZE := 11
  const FEEDBACK_SIZE := 24

  datatype ChassisCommand = ChassisCommand(
    speed: Double, steering: Double, enable: bool, softwareStop: bool, clearFault: bool)

  /** Milli-unit wire fields are kept as reals, as the decoder divides them by 1000. */
  datatype ChassisFeedback = ChassisFeedback(
    statusFlags: Byte, sequence: Byte, hallDelta: int,
    hallSpeed: real, steering: real, yawRate: real,
    batteryMv: int, dtMs: int, statusBits: int, protocolId: Byte)

  // ----- checksum

  function Bcc(data: seq<Byte>): Byte {
    if data == [] then 0 else Bcc(data[..|data| - 1]) ^ data[|data| - 1]
  }

  method CalculateBcc(data: seq<Byte>, size: nat) returns (bcc: Byte)
    requires size <= |data|
    ensures bcc == Bcc(data[..size])
  {
    bcc := 0;
    for index := 0 to size
      invariant bcc == Bcc(data[..index])
    {
      assert data[..index + 1][..index] == data[..index];
      bcc := bcc ^ data[index];
    }
  }

  /** The checksum is the exclusive or: it joins over concatenation, and that of one byte is the byte. */
  lemma {:induction false} BccJoins(a: seq<Byte>, b: seq<Byte>)
    ensures Bcc(a + b) == Bcc(a) ^ Bcc(b)
  {
    if b == [] {
      assert a + b == a;
      XorZero(Bcc(a));
    } else {
      var n := |b| - 1;
      assert (a + b)[..|a| + n] == a + b[..n];
      BccJoins(a, b[..n]);
      XorAssociative(Bcc(a), Bcc(b[..n]), b[n]);
    }
  }

  lemma BccOfOne(x: Byte)
    ensures Bcc([x]) == x
  {
    assert [x][..0] == [];
    XorZero(x);
  }

  lemma XorZero(x: Byte)
    ensures x ^ 0 == x == 0 ^ x
  {
  }

  lemma XorAssociative(x: Byte, y: Byte, z: Byte)
    ensures (x ^ y) ^ z == x ^ (y ^ z)
  {
  }

  /** Changing any one covered byte changes the checksum. */
  lemma {:induction false} BccDetectsByteError(data: seq<Byte>, i: nat, b: Byte)
    requires i < |data| && b != data[i]
    ensures Bcc(data[i := b]) != Bcc(data)
  {
    var last := |data| - 1;
    if i == last {
      assert data[i := b][..last] == data[..last];
    } else {
      assert data[i := b][..last] == data[..last][i := b];
      BccDetectsByteError(data[..last], i, b);
    }
  }

  // ----- big-endian fields

  predicate IsInt16(v: int) {
    -0x8000 <= v < 0x8000
  }

  function HighByte(v: int): Byte
    requires IsInt16(v)
  {
    ((v % 0x1_0000) / 256) as bv8
  }

  function LowByte(v: int): Byte
    requires IsInt16(v)
  {
    ((v % 0x1_0000) % 256) as bv8
  }

  function DecodeU16(high: Byte, low: Byte): int {
    (high as int) * 256 + (low as int)
  }

  function DecodeI16(high: Byte, low: Byte): int {
    Signed16(DecodeU16(high, low))
  }

  /** Two's complement reading of a 16-bit pattern. */
  function Signed16(raw: int): int {
    if raw >= 0x8000 then raw - 0x1_0000 else raw
  }

  function Signed32(raw: int): int {
    if raw >= 0x8000_0000 then raw - 0x1_0000_0000 else raw
  }

  function DecodeI32(d: seq<Byte>): int
    requires |d| == 4
  {
    Signed32(DecodeU32(d))
  }

  function DecodeU32(d: seq<Byte>): int
    requires |d| == 4
  {
    DecodeU16(d[0], d[1]) * 0x1_0000 + DecodeU16(d[2], d[3])
  }

  lemma ByteRoundTrip(x: int)
    requires 0 <= x < 256
    ensures (x as bv8) as int == x
  {
    assert x % 256 == x;
  }

  lemma Int16RoundTrip(v: int)
    requires IsInt16(v)
    ensures DecodeI16(HighByte(v), LowByte(v)) == v
  {
    hide HighByte, LowByte, Signed16;
    BytesOf(v);
    SplitJoins(v % 0x1_0000);
    SignRoundTrip(v);
  }

  lemma SplitJoins(raw: int)
    ensures (raw / 256) * 256 + raw % 256 == raw
  {
  }

  lemma BytesOf(v: int)
    requires IsInt16(v)
    ensures HighByte(v) as int == (v % 0x1_0000) / 256 && LowByte(v) as int == (v % 0x1_0000) % 256
  {
    ByteRoundTrip((v % 0x1_0000) / 256);
    ByteRoundTrip((v % 0x1_0000) % 256);
  }

  // ----- command frames

  /** `None` where the source throws: a value that is not finite or exceeds the wire range. */
  function QuantizeMilli(value: Double): (r: Option<int>)
    ensures r.Some? ==> IsInt16(r.value)
    ensures r.None? <==> value.NotFinite? || value.value * 1000.0 < -32768.000000001 || value.value * 1000.0 > 32767.000000001
    ensures r.Some? ==>
              var off := r.value as real - value.value * 1000.0;
              -0.5 <= off <= 0.5 && (off == 0.5 ==> value.value > 0.0) && (off == -0.5 ==> value.value < 0.0)
  {
    match value
    case NotFinite => None
    case Finite(v) =>
      var scaled := v * 1000.0;
      if scaled < -32768.0 - 0.000000001 || scaled > 32767.0 + 0.000000001 then None
      else Some(RoundHalfAway(scaled))
  }

  predicate Conflicting(c: ChassisCommand) {
    c.clearFault && (c.enable || c.softwareStop || c.speed != Finite(0.0) || c.steering != Finite(0.0))
  }

  /** What the frame carries: a disabled or stopping command is sent with zero fields. */
  function WireValue(c: ChassisCommand, v: Double): Double {
    if !c.enable || c.softwareStop then Finite(0.0) else v
  }

  function CommandFlags(c: ChassisCommand): Byte {
    (if c.enable then FLAG_ENABLE else 0)
    | (if c.softwareStop then FLAG_SOFTWARE_STOP else 0)
    | (if c.clearFault then FLAG_CLEAR_FAULT else 0)
  }

  function CommandHead(c: ChassisCommand, speed: int, steering: int): seq<Byte>
    requires IsInt16(speed) && IsInt16(steering)
  {
    [FRAME_HEAD, ACKERMANN_COMMAND_ID, CommandFlags(c),
     HighByte(speed), LowByte(speed), HighByte(steering), LowByte(steering), 0, 0]
  }

  function EncodeCommand(c: ChassisCommand): Option<seq<Byte>> {
    if Conflicting(c) then None
    else
      var speed := QuantizeMilli(WireValue(c, c.speed));
      var steering := QuantizeMilli(WireValue(c, c.steering));
      if speed.None? || steering.None? then None
      else
        var head := CommandHead(c, speed.value, steering.value);
        Some(head + [Bcc(head), FRAME_TAIL])
  }

  /** Fills a fresh frame byte by byte, in the order of the wire layout. */
  method EncodeCommandFrame(c: ChassisCommand) returns (frame: Option<seq<Byte>>)
    ensures frame == EncodeCommand(c)
  {
    if c.clearFault && (c.enable || c.softwareStop || c.speed != Finite(0.0) || c.steering != Finite(0.0)) {
      return None;
    }
    var speedMps, steeringRad := c.speed, c.steering;
    if !c.enable || c.softwareStop {
      speedMps, steeringRad := Finite(0.0), Finite(0.0);
    }
    var speed := QuantizeMilli(speedMps);
    var steering := QuantizeMilli(steeringRad);
    if speed.None? || steering.None? {
      return None;
    }
    var bytes := new Byte[COMMAND_SIZE](_ => 0);
    FillHead(bytes, c, speed.value, steering.value);
    ghost var head := CommandHead(c, speed.value, steering.value);
    var bcc := CalculateBcc(bytes[..], 9);
    assert bytes[..][..9] == head;
    bytes[9], bytes[10] := bcc, FRAME_TAIL;
    assert bytes[..] == head + [Bcc(head), FRAME_TAIL];
    frame := Some(bytes[..]);
  }

  method FillHead(bytes: array<Byte>, c: ChassisCommand, speed: int, steering: int)
    requires bytes.Length == COMMAND_SIZE && bytes[2] == 0
    requires IsInt16(speed) && IsInt16(steering)
    modifies bytes
    ensures bytes[..9] == CommandHead(c, speed, steering)
  {
    bytes[0], bytes[1] := FRAME_HEAD, ACKERMANN_COMMAND_ID;
    SetFlags(bytes, c);
    bytes[3], bytes[4] := HighByte(speed), LowByte(speed);
    bytes[5], bytes[6] := HighByte(steering), LowByte(steering);
    bytes[7], bytes[8] := 0, 0;
  }

  method SetFlags(bytes: array<Byte>, c: ChassisCommand)
    requires bytes.Length == COMMAND_SIZE && bytes[2] == 0
    modifies bytes
    ensures bytes[..] == old(bytes[..])[2 := CommandFlags(c)]
  {
    if c.enable { bytes[2] := bytes[2] | FLAG_ENABLE; }
    if c.softwareStop { bytes[2] := bytes[2] | FLAG_SOFTWARE_STOP; }
    if c.clearFault { bytes[2] := bytes[2] | FLAG_CLEAR_FAULT; }
    assert bytes[2] == CommandFlags(c);
  }

  /** Encoding fails on exactly the two groups of commands the source throws for. */
  lemma EncodeFailsExactly(c: ChassisCommand)
    ensures EncodeCommand(c).None? <==>
            || (c.clearFault && (c.enable || c.softwareStop || c.speed != Finite(0.0) || c.steering != Finite(0.0)))
            || (c.enable && !c.softwareStop && (!FitsWire(c.speed) || !FitsWire(c.steering)))
  {
  }

  predicate FitsWire(v: Double) {
    v.Finite? && -32.768000000001 <= v.value <= 32.767000000001
  }

  /**
    * What a command frame says on the wire, byte by byte: head, command id, one flag per request,
    * the two motion fields within half a milli-unit (or zero bytes when the command is disabled
    * or stopping), two reserved bytes, checksum and tail.
    */
  lemma EncodeReadsBack(c: ChassisCommand)
    requires EncodeCommand(c).Some?
    ensures var f := EncodeCommand(c).value;
            && |f| == 11 && f[0] == 0x7B && f[1] == 0x01 && f[7] == 0 && f[8] == 0 && f[9] == Bcc(f[..9]) && f[10] == 0x7D
            && f[2] == (if c.enable then 0x01 else 0) + (if c.clearFault then 0x04 else 0) + (if c.softwareStop then 0x80 else 0)
            && if c.enable && !c.softwareStop
               then Carries(DecodeI16(f[3], f[4]), c.speed) && Carries(DecodeI16(f[5], f[6]), c.steering)
               else f[3] == 0 && f[4] == 0 && f[5] == 0 && f[6] == 0
  {
    var f := EncodeCommand(c).value;
    var speed := QuantizeMilli(WireValue(c, c.speed)).value;
    var steering := QuantizeMilli(WireValue(c, c.steering)).value;
    var head := CommandHead(c, speed, steering);
    assert f == head + [Bcc(head), FRAME_TAIL] && f[..9] == head;
    FieldReadsBack(WireValue(c, c.speed));
    FieldReadsBack(WireValue(c, c.steering));
    ZeroBytes();
    FlagsRead(c);
  }

  lemma ZeroBytes()
    ensures HighByte(0) == 0 && LowByte(0) == 0
  {
  }

  lemma FieldReadsBack(v: Double)
    requires QuantizeMilli(v).Some?
    ensures var raw := QuantizeMilli(v).value; Carries(DecodeI16(HighByte(raw), LowByte(raw)), v)
  {
    Int16RoundTrip(QuantizeMilli(v).value);
  }

  lemma FlagsRead(c: ChassisCommand)
    ensures CommandFlags(c)
         == (if c.enable then 0x01 else 0) + (if c.clearFault then 0x04 else 0) + (if c.softwareStop then 0x80 else 0)
  {
  }

  /** In milli-units, the nearest to the value, halves away from zero. */
  predicate Carries(raw: int, v: Double) {
    v.Finite?
    && var off := raw as real / 1000.0 - v.value;
       -0.0005 <= off <= 0.0005 && (off == 0.0005 ==> v.value > 0.0) && (off == -0.0005 ==> v.value < 0.0)
  }

  // ----- feedback frames

  predicate WellFramed(w: seq<Byte>) {
    |w| == FEEDBACK_SIZE && w[0] == FRAME_HEAD && w[23] == FRAME_TAIL && w[22] == Bcc(w[..22])
  }

  predicate WellFormed(w: seq<Byte>) {
    WellFramed(w) && w[21] == TELEMETRY_PROTOCOL_ID
  }

  function DecodeFeedback(w: seq<Byte>): (r: Option<ChassisFeedback>)
    requires |w| == FEEDBACK_SIZE
    ensures r.Some? <==> WellFormed(w)
    ensures r.Some? <==> w[0] == 0x7B && w[21] == 0xA1 && w[22] == Bcc(w[..22]) && w[23] == 0x7D
  {
    if w[0] != FRAME_HEAD || w[23] != FRAME_TAIL || w[22] != Bcc(w[..22])
       || w[21] != TELEMETRY_PROTOCOL_ID then None
    else Some(ChassisFeedback(
                w[1], w[2], DecodeI32(w[3..7]),
                DecodeI16(w[7], w[8]) as real / 1000.0,
                DecodeI16(w[9], w[10]) as real / 1000.0,
                DecodeI16(w[11], w[12]) as real / 1000.0,
                DecodeU16(w[13], w[14]), DecodeU16(w[15], w[16]),
                DecodeU32(w[17..21]), w[21]))
  }

  // ----- the layout the decoder must invert, written from the sending side

  function U16Bytes(v: int): seq<Byte>
    requires 0 <= v < 0x1_0000
  {
    [(v / 256) as bv8, (v % 256) as bv8]
  }

  function U32Bytes(v: int): seq<Byte>
    requires 0 <= v < 0x1_0000_0000
  {
    U16Bytes(v / 0x1_0000) + U16Bytes(v % 0x1_0000)
  }

  /** Field values in wire units: counts, milli-units, millivolts, milliseconds, bits. */
  datatype Telemetry = Telemetry(
    flags: Byte, sequence: Byte, hallDelta: int, speed: int, steering: int, yawRate: int,
    batteryMv: int, dtMs: int, statusBits: int)
  {
    predicate Representable() {
      && -0x8000_0000 <= hallDelta < 0x8000_0000
      && IsInt16(speed) && IsInt16(steering) && IsInt16(yawRate)
      && 0 <= batteryMv < 0x1_0000 && 0 <= dtMs < 0x1_0000 && 0 <= statusBits < 0x1_0000_0000
    }
  }

  function TelemetryBody(t: Telemetry): seq<Byte>
    requires t.Representable()
  {
    [FRAME_HEAD, t.flags, t.sequence] + U32Bytes(t.hallDelta % 0x1_0000_0000)
    + U16Bytes(t.speed % 0x1_0000) + U16Bytes(t.steering % 0x1_0000) + U16Bytes(t.yawRate % 0x1_0000)
    + U16Bytes(t.batteryMv) + U16Bytes(t.dtMs) + U32Bytes(t.statusBits) + [TELEMETRY_PROTOCOL_ID]
  }

  function TelemetryFrame(t: Telemetry): seq<Byte>
    requires t.Representable()
  {
    TelemetryBody(t) + [Bcc(TelemetryBody(t)), FRAME_TAIL]
  }

  lemma U16RoundTrip(v: int)
    requires 0 <= v < 0x1_0000
    ensures DecodeU16(U16Bytes(v)[0], U16Bytes(v)[1]) == v
  {
    ByteRoundTrip(v / 256);
    ByteRoundTrip(v % 256);
  }

  lemma U32RoundTrip(v: int)
    requires 0 <= v < 0x1_0000_0000
    ensures DecodeU32(U32Bytes(v)) == v
  {
    U16RoundTrip(v / 0x1_0000);
    U16RoundTrip(v % 0x1_0000);
  }

  lemma I16RoundTrip(v: int)
    requires IsInt16(v)
    ensures var b := U16Bytes(v % 0x1_0000); DecodeI16(b[0], b[1]) == v
  {
    U16RoundTrip(v % 0x1_0000);
    SignRoundTrip(v);
  }

  lemma SignRoundTrip(v: int)
    ensures IsInt16(v) ==> Signed16(v % 0x1_0000) == v
    ensures -0x8000_0000 <= v < 0x8000_0000 ==> Signed32(v % 0x1_0000_0000) == v
  {
  }

  lemma I32RoundTrip(v: int)
    requires -0x8000_0000 <= v < 0x8000_0000
    ensures DecodeI32(U32Bytes(v % 0x1_0000_0000)) == v
  {
    U32RoundTrip(v % 0x1_0000_0000);
    SignRoundTrip(v);
  }

  predicate Holds(w: seq<Byte>, p: nat, field: seq<Byte>)
    requires |field| == 2
  {
    p + 2 <= |w| && w[p] == field[0] && w[p + 1] == field[1]
  }

  lemma Layout(t: Telemetry)
    requires t.Representable()
    ensures var w := TelemetryFrame(t);
            && |w| == FEEDBACK_SIZE && WellFormed(w) && w[1] == t.flags && w[2] == t.sequence
            && w[3..7] == U32Bytes(t.hallDelta % 0x1_0000_0000) && w[17..21] == U32Bytes(t.statusBits)
            && Holds(w, 7, U16Bytes(t.speed % 0x1_0000)) && Holds(w, 9, U16Bytes(t.steering % 0x1_0000))
            && Holds(w, 11, U16Bytes(t.yawRate % 0x1_0000))
            && Holds(w, 13, U16Bytes(t.batteryMv)) && Holds(w, 15, U16Bytes(t.dtMs))
  {
    assert TelemetryFrame(t)[..22] == TelemetryBody(t);
    Offsets([FRAME_HEAD, t.flags, t.sequence], U32Bytes(t.hallDelta % 0x1_0000_0000),
            U16Bytes(t.speed % 0x1_0000), U16Bytes(t.steering % 0x1_0000), U16Bytes(t.yawRate % 0x1_0000),
            U16Bytes(t.batteryMv), U16Bytes(t.dtMs), U32Bytes(t.statusBits),
            [TELEMETRY_PROTOCOL_ID], [Bcc(TelemetryBody(t)), FRAME_TAIL]);
  }

  lemma Offsets(a: seq<Byte>, d: seq<Byte>, v: seq<Byte>, s: seq<Byte>, y: seq<Byte>, b: seq<Byte>,
                m: seq<Byte>, bits: seq<Byte>, id: seq<Byte>, z: seq<Byte>)
    requires |a| == 3 && |d| == 4 && |bits| == 4 && |id| == 1 && |z| == 2
    requires |v| == 2 && |s| == 2 && |y| == 2 && |b| == 2 && |m| == 2
    ensures var w := a + d + v + s + y + b + m + bits + id + z;
            && |w| == 24 && w[0] == a[0] && w[1] == a[1] && w[2] == a[2] && w[3..7] == d && w[17..21] == bits
            && Holds(w, 7, v) && Holds(w, 9, s) && Holds(w, 11, y) && Holds(w, 13, b) && Holds(w, 15, m)
            && w[21] == id[0] && w[22] == z[0] && w[23] == z[1]
  {
  }

  /** Decoding inverts the layout: every field comes back from its own offset. */
  lemma TelemetryRoundTrip(t: Telemetry)
    requires t.Representable()
    ensures |TelemetryFrame(t)| == FEEDBACK_SIZE && WellFormed(TelemetryFrame(t))
    ensures DecodeFeedback(TelemetryFrame(t)) == Some(ChassisFeedback(
              t.flags, t.sequence, t.hallDelta, t.speed as real / 1000.0, t.steering as real / 1000.0,
              t.yawRate as real / 1000.0, t.batteryMv, t.dtMs, t.statusBits, TELEMETRY_PROTOCOL_ID))
  {
    Layout(t);
    FieldsDecode(t, TelemetryFrame(t));
  }

  lemma FieldsDecode(t: Telemetry, w: seq<Byte>)
    requires t.Representable() && |w| == FEEDBACK_SIZE && WellFormed(w) && w[1] == t.flags && w[2] == t.sequence
    requires w[3..7] == U32Bytes(t.hallDelta % 0x1_0000_0000) && w[17..21] == U32Bytes(t.statusBits)
    requires Holds(w, 7, U16Bytes(t.speed % 0x1_0000)) && Holds(w, 9, U16Bytes(t.steering % 0x1_0000))
    requires Holds(w, 11, U16Bytes(t.yawRate % 0x1_0000))
    requires Holds(w, 13, U16Bytes(t.batteryMv)) && Holds(w, 15, U16Bytes(t.dtMs))
    ensures DecodeFeedback(w) == Some(ChassisFeedback(
              t.flags, t.sequence, t.hallDelta, t.speed as real / 1000.0, t.steering as real / 1000.0,
              t.yawRate as real / 1000.0, t.batteryMv, t.dtMs, t.statusBits, TELEMETRY_PROTOCOL_ID))
  {
    I32RoundTrip(t.hallDelta);
    U32RoundTrip(t.statusBits);
    I16RoundTrip(t.speed);
    I16RoundTrip(t.steering);
    I16RoundTrip(t.yawRate);
    U16RoundTrip(t.batteryMv);
    U16RoundTrip(t.dtMs);
  }
}
