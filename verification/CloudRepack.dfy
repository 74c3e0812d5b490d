/** Repacking a C32 point cloud of any layout into the normalised 16-byte layout. */
module CloudRepack {
  import opened Basics

  type Byte = bv8

  const U32: nat := 0x1_0000_0000
  const U64: nat := 0x1_0000_0000_0000_0000

  /** Unsigned 64-bit arithmetic. */
  function Wrap(x: nat): nat {
    x % U64
  }

  const UINT8: nat := 2
  const UINT16: nat := 4
  const FLOAT32: nat := 7

  datatype Field = Field(name: string, offset: nat, kind: nat, count: nat)

  datatype Header = Header(frame: string, stampNs: int)

  datatype Cloud = Cloud(
    header: Header, height: nat, width: nat, fields: seq<Field>, bigEndian: bool,
    pointStep: nat, rowStep: nat, data: seq<Byte>, dense: bool)
  {
    /** The integer widths of the message. */
    predicate Representable() {
      && height < U32 && width < U32 && pointStep < U32 && rowStep < U32 && |data| < U64
      && forall f :: f in fields ==> f.offset < U32
    }
  }

  datatype Failure =
    | BigEndian
    | ZeroPointStep
    | MissingField(name: string)
    | WrongType(name: string)
    | ExceedsPoint(name: string)
    | RowTooShort
    | DataTooShort
    | TooLarge

  datatype Result<T> = Ok(value: T) | Err(failure: Failure)

  const OUTPUT_STEP: nat := 16
  const SINGLE_STRONGEST_RETURN: Byte := 1

  const OUTPUT_FIELDS: seq<Field> := [
    Field("x", 0, FLOAT32, 1), Field("y", 4, FLOAT32, 1), Field("z", 8, FLOAT32, 1),
    Field("intensity", 12, UINT8, 1), Field("return_type", 13, UINT8, 1), Field("channel", 14, UINT16, 1)]

  // ----- the checks

  /** The first field of a name. */
  function Find(fields: seq<Field>, name: string): Option<Field> {
    if fields == [] then None
    else if fields[0].name == name then Some(fields[0])
    else Find(fields[1..], name)
  }

  function RequireField(cloud: Cloud, name: string, kind: nat, size: nat): Result<nat> {
    match Find(cloud.fields, name)
    case None => Err(MissingField(name))
    case Some(f) =>
      if f.kind != kind || f.count != 1 then Err(WrongType(name))
      else if Wrap(f.offset + size) > cloud.pointStep then Err(ExceedsPoint(name))
      else Ok(f.offset)
  }

  /** The offsets of the fields that are read. */
  datatype Layout = Layout(x: nat, y: nat, z: nat, intensity: nat, ring: nat)

  function ReadLayout(cloud: Cloud): Result<Layout> {
    var x := RequireField(cloud, "x", FLOAT32, 4);
    if x.Err? then Err(x.failure) else
    var y := RequireField(cloud, "y", FLOAT32, 4);
    if y.Err? then Err(y.failure) else
    var z := RequireField(cloud, "z", FLOAT32, 4);
    if z.Err? then Err(z.failure) else
    var intensity := RequireField(cloud, "intensity", FLOAT32, 4);
    if intensity.Err? then Err(intensity.failure) else
    var ring := RequireField(cloud, "ring", UINT16, 2);
    if ring.Err? then Err(ring.failure) else Ok(Layout(x.value, y.value, z.value, intensity.value, ring.value))
  }

  /** Bytes up to the end of the last point, in 64-bit arithmetic. */
  function RequiredBytes(cloud: Cloud): nat {
    if cloud.height == 0 then 0
    else Wrap(Wrap((cloud.height - 1) * cloud.rowStep) + Wrap(cloud.width * cloud.pointStep))
  }

  function OutputSize(cloud: Cloud): nat {
    Wrap(cloud.height * Wrap(cloud.width * OUTPUT_STEP))
  }

  function Check(cloud: Cloud): Result<Layout> {
    if cloud.bigEndian then Err(BigEndian)
    else if cloud.pointStep == 0 && cloud.width != 0 && cloud.height != 0 then Err(ZeroPointStep)
    else
      var layout := ReadLayout(cloud);
      if layout.Err? then layout
      else if Wrap(cloud.width * cloud.pointStep) > cloud.rowStep then Err(RowTooShort)
      else if RequiredBytes(cloud) > |cloud.data| then Err(DataTooShort)
      else if Wrap(cloud.width * OUTPUT_STEP) > U32 - 1 || OutputSize(cloud) > U64 - 1 then Err(TooLarge)
      else layout
  }

  /** A field of the right type whose bytes lie inside a point. */
  predicate Fits(cloud: Cloud, name: string, kind: nat, size: nat) {
    match Find(cloud.fields, name)
    case None => false
    case Some(f) => f.kind == kind && f.count == 1 && f.offset + size <= cloud.pointStep
  }

  /** What acceptance means, in unbounded arithmetic. */
  predicate Acceptable(cloud: Cloud) {
    && !cloud.bigEndian
    && Fits(cloud, "x", 7, 4) && Fits(cloud, "y", 7, 4) && Fits(cloud, "z", 7, 4)
    && Fits(cloud, "intensity", 7, 4) && Fits(cloud, "ring", 4, 2)
    && cloud.width * cloud.pointStep <= cloud.rowStep
    && (cloud.height == 0 || (cloud.height - 1) * cloud.rowStep + cloud.width * cloud.pointStep <= |cloud.data|)
    && cloud.width * 16 < U32
  }

  /** Field `k` is the first of its name. */
  predicate FirstNamed(fields: seq<Field>, name: string, k: nat) {
    k < |fields| && fields[k].name == name && forall i :: 0 <= i < k ==> fields[i].name != name
  }

  lemma {:induction false} FoundIsFirst(fields: seq<Field>, name: string) returns (k: nat)
    ensures match Find(fields, name)
            case None => forall i :: 0 <= i < |fields| ==> fields[i].name != name
            case Some(f) => FirstNamed(fields, name, k) && fields[k] == f
  {
    k := 0;
    if fields != [] && fields[0].name != name {
      k := FoundIsFirst(fields[1..], name);
      if Find(fields, name).None? {
        forall i | 0 <= i < |fields| ensures fields[i].name != name { if i > 0 { assert fields[1..][i - 1] == fields[i]; } }
      } else {
        forall i | 0 <= i < k + 1 ensures fields[i].name != name { if i > 0 { assert fields[1..][i - 1] == fields[i]; } }
        k := k + 1;
      }
    }
  }

  /** The first field of a name is of the type, counts one and lies inside a point. */
  lemma FitsExactly(cloud: Cloud, name: string, kind: nat, size: nat)
    ensures Fits(cloud, name, kind, size) <==>
            exists k: nat :: FirstNamed(cloud.fields, name, k) && cloud.fields[k].kind == kind && cloud.fields[k].count == 1
                             && cloud.fields[k].offset + size <= cloud.pointStep
  {
    var k := FoundIsFirst(cloud.fields, name);
    if i: nat :| FirstNamed(cloud.fields, name, i) && Find(cloud.fields, name).Some? { assert i == k; }
  }

  lemma FoundIsThere(fields: seq<Field>, name: string)
    ensures Find(fields, name).Some? ==> Find(fields, name).value in fields && Find(fields, name).value.name == name
  {
  }

  lemma FieldChecked(cloud: Cloud, name: string, kind: nat, size: nat)
    requires cloud.Representable() && size <= 4
    ensures RequireField(cloud, name, kind, size).Ok? <==> Fits(cloud, name, kind, size)
    ensures RequireField(cloud, name, kind, size).Ok? ==>
              RequireField(cloud, name, kind, size).value + size <= cloud.pointStep
  {
    FoundIsThere(cloud.fields, name);
  }

  lemma ProductBelow(x: nat, y: nat, m: nat, n: nat)
    requires x < m && y < n
    ensures x * y <= (m - 1) * (n - 1)
  {
    var p, q := m - 1 - x, n - 1 - y;
    assert (m - 1) * (n - 1) == (x + p) * (y + q) == x * y + x * q + p * y + p * q;
    assert x * q >= 0 && p * y >= 0 && p * q >= 0;
  }

  lemma WrapsNot(x: nat)
    requires x < U64
    ensures Wrap(x) == x
  {
  }

  /** The sizes of an input never wrap; the output's do not where its row size passes the check. */
  lemma SizesExact(cloud: Cloud)
    requires cloud.Representable()
    ensures Wrap(cloud.width * cloud.pointStep) == cloud.width * cloud.pointStep
    ensures Wrap(cloud.width * OUTPUT_STEP) == cloud.width * OUTPUT_STEP
    ensures cloud.height > 0 && cloud.width * cloud.pointStep <= cloud.rowStep ==>
              RequiredBytes(cloud) == (cloud.height - 1) * cloud.rowStep + cloud.width * cloud.pointStep
    ensures cloud.width * OUTPUT_STEP < U32 ==> OutputSize(cloud) == cloud.height * (cloud.width * OUTPUT_STEP)
  {
    hide Wrap;
    ProductBelow(cloud.width, cloud.pointStep, U32, U32);
    WrapsNot(cloud.width * cloud.pointStep);
    WrapsNot(cloud.width * OUTPUT_STEP);
    if cloud.height > 0 && cloud.width * cloud.pointStep <= cloud.rowStep {
      ProductBelow(cloud.height - 1, cloud.rowStep, U32 - 1, U32);
      WrapsNot((cloud.height - 1) * cloud.rowStep);
      WrapsNot((cloud.height - 1) * cloud.rowStep + cloud.width * cloud.pointStep);
    }
    if cloud.width * OUTPUT_STEP < U32 {
      ProductBelow(cloud.height, cloud.width * OUTPUT_STEP, U32, U32);
      WrapsNot(cloud.height * (cloud.width * OUTPUT_STEP));
    }
  }

  /** The wrapping checks accept exactly the clouds that the unbounded ones do. */
  lemma AcceptedExactly(cloud: Cloud)
    requires cloud.Representable()
    ensures Check(cloud).Ok? <==> Acceptable(cloud)
    ensures Check(cloud).Ok? ==>
              var l := Check(cloud).value;
              l.x + 4 <= cloud.pointStep && l.y + 4 <= cloud.pointStep && l.z + 4 <= cloud.pointStep
              && l.intensity + 4 <= cloud.pointStep && l.ring + 2 <= cloud.pointStep
  {
    hide RequireField, Fits, RequiredBytes, OutputSize;
    SizesExact(cloud);
    NoBytes(cloud);
    FieldChecked(cloud, "x", FLOAT32, 4);
    FieldChecked(cloud, "y", FLOAT32, 4);
    FieldChecked(cloud, "z", FLOAT32, 4);
    FieldChecked(cloud, "intensity", FLOAT32, 4);
    FieldChecked(cloud, "ring", UINT16, 2);
    assert OutputSize(cloud) <= U64 - 1 by { Below64(cloud); }
  }

  lemma NoBytes(cloud: Cloud)
    ensures cloud.height == 0 ==> RequiredBytes(cloud) == 0
  {
  }

  /** The second half of the output check never fires. */
  lemma Below64(cloud: Cloud)
    ensures OutputSize(cloud) <= U64 - 1
  {
  }

  // ----- why a cloud is refused

  /** The fields that are read, in the order in which they are checked. */
  const READ_FIELDS: seq<(string, nat, nat)> := [("x", 7, 4), ("y", 7, 4), ("z", 7, 4), ("intensity", 7, 4), ("ring", 4, 2)]

  /** The first `n` fields that are read fit. */
  predicate FieldsFit(cloud: Cloud, n: nat)
    requires n <= |READ_FIELDS|
  {
    forall i :: 0 <= i < n ==> Fits(cloud, READ_FIELDS[i].0, READ_FIELDS[i].1, READ_FIELDS[i].2)
  }

  /** What is wrong with the first field of a name. */
  ghost predicate FieldWrong(cloud: Cloud, name: string, kind: nat, size: nat, failure: Failure) {
    || (failure == MissingField(name) && forall i :: 0 <= i < |cloud.fields| ==> cloud.fields[i].name != name)
    || (exists k: nat :: FirstNamed(cloud.fields, name, k)
          && var f := cloud.fields[k];
             if f.kind != kind || f.count != 1 then failure == WrongType(name)
             else f.offset + size > cloud.pointStep && failure == ExceedsPoint(name))
  }

  /** The refusal names the first thing that is wrong, in unbounded arithmetic. */
  ghost predicate RefusedFor(cloud: Cloud, failure: Failure) {
    if cloud.bigEndian then failure == BigEndian
    else if cloud.pointStep == 0 && cloud.width > 0 && cloud.height > 0 then failure == ZeroPointStep
    else if !FieldsFit(cloud, 5) then
      exists n: nat :: n < 5 && FieldsFit(cloud, n)
        && FieldWrong(cloud, READ_FIELDS[n].0, READ_FIELDS[n].1, READ_FIELDS[n].2, failure)
    else if cloud.width * cloud.pointStep > cloud.rowStep then failure == RowTooShort
    else if cloud.height > 0 && (cloud.height - 1) * cloud.rowStep + cloud.width * cloud.pointStep > |cloud.data|
    then failure == DataTooShort
    else cloud.width * 16 >= U32 && failure == TooLarge
  }

  lemma FieldRefusal(cloud: Cloud, name: string, kind: nat, size: nat)
    requires cloud.Representable() && size <= 4
    ensures var r := RequireField(cloud, name, kind, size);
            r.Err? ==> !Fits(cloud, name, kind, size) && FieldWrong(cloud, name, kind, size, r.failure)
  {
    var k := FoundIsFirst(cloud.fields, name);
    FieldChecked(cloud, name, kind, size);
    FoundIsThere(cloud.fields, name);
  }

  lemma LayoutRefusal(cloud: Cloud)
    requires cloud.Representable() && ReadLayout(cloud).Err?
    ensures exists n: nat :: n < 5 && FieldsFit(cloud, n)
              && FieldWrong(cloud, READ_FIELDS[n].0, READ_FIELDS[n].1, READ_FIELDS[n].2, ReadLayout(cloud).failure)
    ensures !FieldsFit(cloud, 5)
  {
    hide RequireField, Fits, FieldWrong;
    forall i: nat | i < 5
      ensures var (name, kind, size) := READ_FIELDS[i];
              && (RequireField(cloud, name, kind, size).Ok? <==> Fits(cloud, name, kind, size))
              && (RequireField(cloud, name, kind, size).Err? ==>
                    FieldWrong(cloud, name, kind, size, RequireField(cloud, name, kind, size).failure))
    {
      FieldRefusal(cloud, READ_FIELDS[i].0, READ_FIELDS[i].1, READ_FIELDS[i].2);
      FieldChecked(cloud, READ_FIELDS[i].0, READ_FIELDS[i].1, READ_FIELDS[i].2);
    }
    var n: nat := 0;
    while n < 5 && RequireField(cloud, READ_FIELDS[n].0, READ_FIELDS[n].1, READ_FIELDS[n].2).Ok?
      invariant n <= 5 && FieldsFit(cloud, n)
      invariant forall i :: 0 <= i < n ==> RequireField(cloud, READ_FIELDS[i].0, READ_FIELDS[i].1, READ_FIELDS[i].2).Ok?
    {
      n := n + 1;
    }
    assert READ_FIELDS[0] == ("x", 7, 4) && READ_FIELDS[1] == ("y", 7, 4) && READ_FIELDS[2] == ("z", 7, 4);
    assert READ_FIELDS[3] == ("intensity", 7, 4) && READ_FIELDS[4] == ("ring", 4, 2);
  }

  lemma RefusedExactly(cloud: Cloud)
    requires cloud.Representable() && Check(cloud).Err?
    ensures RefusedFor(cloud, Check(cloud).failure)
  {
    hide ReadLayout, RequiredBytes, OutputSize, FieldWrong, FieldsFit, Wrap;
    SizesExact(cloud);
    NoBytes(cloud);
    assert OutputSize(cloud) <= U64 - 1 by { Below64(cloud); }
    if ReadLayout(cloud).Err? {
      LayoutRefusal(cloud);
    } else {
      LayoutAccepted(cloud);
    }
  }

  lemma LayoutAccepted(cloud: Cloud)
    requires cloud.Representable() && ReadLayout(cloud).Ok?
    ensures FieldsFit(cloud, 5)
  {
    hide RequireField, Fits;
    FieldChecked(cloud, "x", 7, 4);
    FieldChecked(cloud, "y", 7, 4);
    FieldChecked(cloud, "z", 7, 4);
    FieldChecked(cloud, "intensity", 7, 4);
    FieldChecked(cloud, "ring", 4, 2);
  }

  // ----- what a point becomes

  /** How four bytes read as a `float`. */
  type FloatOf = seq<Byte> -> Double

  function NormalizeIntensity(intensity: Double): (r: nat)
    ensures r <= 255
    ensures intensity.NotFinite? || intensity.value <= 0.0 ==> r == 0
    ensures intensity.Finite? && intensity.value >= 255.0 ==> r == 255
    ensures intensity.Finite? && 0.0 <= intensity.value <= 255.0 ==> r as real - 0.5 <= intensity.value < r as real + 0.5
  {
    match intensity
    case NotFinite => 0
    case Finite(v) => RoundHalfAway(Clamp(v, 0.0, 255.0))
  }

  function IntensityByte(intensity: Double): Byte {
    NormalizeIntensity(intensity) as Byte
  }

  /** The bytes of the input point in a row and column. */
  function InputOffset(cloud: Cloud, row: nat, column: nat): nat {
    row * cloud.rowStep + column * cloud.pointStep
  }

  /** Every byte read for a point of an accepted cloud is inside the data. */
  lemma ReadsInBounds(cloud: Cloud, row: nat, column: nat)
    requires Acceptable(cloud) && row < cloud.height && column < cloud.width
    ensures InputOffset(cloud, row, column) + cloud.pointStep <= |cloud.data|
  {
    Monotone(row, cloud.height - 1, cloud.rowStep);
    Monotone(column + 1, cloud.width, cloud.pointStep);
    NextRow(column, cloud.pointStep);
  }

  lemma Monotone(fewer: nat, more: nat, size: nat)
    requires fewer <= more
    ensures fewer * size <= more * size
  {
  }

  lemma NextRow(rows: nat, size: nat)
    ensures (rows + 1) * size == rows * size + size
  {
  }

  function Slice(data: seq<Byte>, at: nat, size: nat): (r: seq<Byte>)
    requires at + size <= |data|
    ensures |r| == size
  {
    data[at..at + size]
  }

  predicate LayoutFits(cloud: Cloud, l: Layout) {
    && l.x + 4 <= cloud.pointStep && l.y + 4 <= cloud.pointStep && l.z + 4 <= cloud.pointStep
    && l.intensity + 4 <= cloud.pointStep && l.ring + 2 <= cloud.pointStep
  }

  function PointBytes(floatOf: FloatOf, cloud: Cloud, l: Layout, row: nat, column: nat): (r: seq<Byte>)
    requires Acceptable(cloud) && LayoutFits(cloud, l) && row < cloud.height && column < cloud.width
    ensures |r| == OUTPUT_STEP
  {
    ReadsInBounds(cloud, row, column);
    var at, d := InputOffset(cloud, row, column), cloud.data;
    Slice(d, at + l.x, 4) + Slice(d, at + l.y, 4) + Slice(d, at + l.z, 4)
    + [IntensityByte(floatOf(Slice(d, at + l.intensity, 4))), SINGLE_STRONGEST_RETURN]
    + Slice(d, at + l.ring, 2)
  }

  /** The first `columns` points of a row. */
  function RowBytes(floatOf: FloatOf, cloud: Cloud, l: Layout, row: nat, columns: nat): (r: seq<Byte>)
    requires Acceptable(cloud) && LayoutFits(cloud, l) && row < cloud.height && columns <= cloud.width
    ensures |r| == OUTPUT_STEP * columns
  {
    if columns == 0 then []
    else RowBytes(floatOf, cloud, l, row, columns - 1) + PointBytes(floatOf, cloud, l, row, columns - 1)
  }

  /** Where a row starts, all rows having this size. */
  function RowStart(row: nat, size: nat): nat {
    row * size
  }

  lemma NextStart(row: nat, rows: nat, size: nat)
    requires row < rows
    ensures RowStart(row + 1, size) == RowStart(row, size) + size <= RowStart(rows, size)
  {
    NextRow(row, size);
    Monotone(row + 1, rows, size);
  }

  /** The first `rows` rows. */
  function Repacked(floatOf: FloatOf, cloud: Cloud, l: Layout, rows: nat): (r: seq<Byte>)
    requires Acceptable(cloud) && LayoutFits(cloud, l) && rows <= cloud.height
    ensures |r| == RowStart(rows, cloud.width * OUTPUT_STEP)
  {
    if rows == 0 then []
    else
      NextStart(rows - 1, rows, cloud.width * OUTPUT_STEP);
      Repacked(floatOf, cloud, l, rows - 1) + RowBytes(floatOf, cloud, l, rows - 1, cloud.width)
  }

  lemma {:induction false} PointInRow(floatOf: FloatOf, cloud: Cloud, l: Layout, row: nat, columns: nat, column: nat)
    requires Acceptable(cloud) && LayoutFits(cloud, l) && row < cloud.height && column < columns <= cloud.width
    ensures Slice(RowBytes(floatOf, cloud, l, row, columns), OUTPUT_STEP * column, OUTPUT_STEP)
         == PointBytes(floatOf, cloud, l, row, column)
  {
    hide PointBytes, Acceptable;
    if column < columns - 1 {
      PointInRow(floatOf, cloud, l, row, columns - 1, column);
    }
  }

  /** Where one of `rows` rows starts. */
  function RowOffset(row: nat, rows: nat, size: nat): (at: nat)
    requires row < rows
    ensures at + size <= RowStart(rows, size)
  {
    NextStart(row, rows, size);
    RowStart(row, size)
  }

  lemma {:induction false} RowInCloud(floatOf: FloatOf, cloud: Cloud, l: Layout, rows: nat, row: nat)
    requires Acceptable(cloud) && LayoutFits(cloud, l) && row < rows <= cloud.height
    ensures Slice(Repacked(floatOf, cloud, l, rows), RowOffset(row, rows, cloud.width * OUTPUT_STEP), cloud.width * OUTPUT_STEP)
         == RowBytes(floatOf, cloud, l, row, cloud.width)
  {
    hide RowBytes, Acceptable, LayoutFits, RowStart;
    NextStart(rows - 1, rows, cloud.width * OUTPUT_STEP);
    if row < rows - 1 {
      RowInCloud(floatOf, cloud, l, rows - 1, row);
    }
  }

  lemma ColumnsFit(column: nat, columns: nat)
    requires column < columns
    ensures column * OUTPUT_STEP + OUTPUT_STEP <= columns * OUTPUT_STEP
  {
  }

  /** Where a point starts in the output. */
  function PointOffset(cloud: Cloud, row: nat, column: nat): (at: nat)
    requires row < cloud.height && column < cloud.width
    ensures at + OUTPUT_STEP <= RowStart(cloud.height, cloud.width * OUTPUT_STEP)
  {
    ColumnsFit(column, cloud.width);
    RowOffset(row, cloud.height, cloud.width * OUTPUT_STEP) + column * OUTPUT_STEP
  }

  /** The output bytes at a point's place are exactly that point's. */
  lemma PointInCloud(floatOf: FloatOf, cloud: Cloud, l: Layout, row: nat, column: nat)
    requires Acceptable(cloud) && LayoutFits(cloud, l) && row < cloud.height && column < cloud.width
    ensures Slice(Repacked(floatOf, cloud, l, cloud.height), PointOffset(cloud, row, column), OUTPUT_STEP)
         == PointBytes(floatOf, cloud, l, row, column)
  {
    hide PointBytes, RowBytes, Repacked, Acceptable, LayoutFits, RowOffset, RowStart;
    var size := cloud.width * OUTPUT_STEP;
    RowInCloud(floatOf, cloud, l, cloud.height, row);
    PointInRow(floatOf, cloud, l, row, cloud.width, column);
    SliceOfSlice(Repacked(floatOf, cloud, l, cloud.height), RowOffset(row, cloud.height, size), size,
                 OUTPUT_STEP * column, OUTPUT_STEP);
  }

  lemma SliceOfSlice(data: seq<Byte>, at: nat, size: nat, inner: nat, length: nat)
    requires at + size <= |data| && inner + length <= size
    ensures Slice(Slice(data, at, size), inner, length) == Slice(data, at + inner, length)
  {
    var whole := Slice(data, at, size);
    var twice, once := Slice(whole, inner, length), Slice(data, at + inner, length);
    forall i | 0 <= i < length ensures twice[i] == once[i] {
      assert twice[i] == whole[inner + i] == data[at + (inner + i)];
      assert once[i] == data[(at + inner) + i];
    }
  }

  // ----- the loops

  /** The indices `from`, `from + 1`, ... */
  function Range(from: nat, count: nat): (r: seq<nat>)
    ensures |r| == count
  {
    seq(count, i requires 0 <= i < count => from + i)
  }

  /** `memcpy` to the end of what is written, with a log of the indices written. */
  method Copy(output: array<Byte>, at: nat, bytes: seq<Byte>, ghost log: seq<nat>) returns (ghost logged: seq<nat>)
    requires at + |bytes| <= output.Length && log == Range(0, at)
    modifies output
    ensures output[..at + |bytes|] == old(output[..at]) + bytes
    ensures logged == Range(0, at + |bytes|)
  {
    logged := log;
    for i := 0 to |bytes|
      invariant output[..at + i] == old(output[..at]) + bytes[..i]
      invariant logged == Range(0, at + i)
    {
      output[at + i] := bytes[i];
      logged := logged + [at + i];
    }
  }

  lemma LayoutBounds(cloud: Cloud, l: Layout)
    requires LayoutFits(cloud, l)
    ensures l.x + 4 <= cloud.pointStep && l.y + 4 <= cloud.pointStep && l.z + 4 <= cloud.pointStep
    ensures l.intensity + 4 <= cloud.pointStep && l.ring + 2 <= cloud.pointStep
  {
  }

  /** One point: six copies next to each other. */
  method CopyPoint(floatOf: FloatOf, cloud: Cloud, l: Layout, row: nat, column: nat, output: array<Byte>, at: nat,
                   ghost log: seq<nat>) returns (ghost logged: seq<nat>)
    requires Acceptable(cloud) && LayoutFits(cloud, l) && row < cloud.height && column < cloud.width
    requires at + OUTPUT_STEP <= output.Length && log == Range(0, at)
    modifies output
    ensures output[..at + OUTPUT_STEP] == old(output[..at]) + PointBytes(floatOf, cloud, l, row, column)
    ensures logged == Range(0, at + OUTPUT_STEP)
  {
    hide Acceptable, InputOffset, Slice, Range, IntensityByte, LayoutFits;
    ReadsInBounds(cloud, row, column);
    LayoutBounds(cloud, l);
    var from, d := InputOffset(cloud, row, column), cloud.data;
    var x, y, z := Slice(d, from + l.x, 4), Slice(d, from + l.y, 4), Slice(d, from + l.z, 4);
    var intensity := IntensityByte(floatOf(Slice(d, from + l.intensity, 4)));
    var ring := Slice(d, from + l.ring, 2);
    logged := CopyPosition(output, at, x, y, z, log);
    logged := CopyRest(output, at + 12, intensity, ring, logged);
    Joined(old(output[..at]), x, y, z, intensity, ring);
  }

  method CopyPosition(output: array<Byte>, at: nat, x: seq<Byte>, y: seq<Byte>, z: seq<Byte>, ghost log: seq<nat>)
    returns (ghost logged: seq<nat>)
    requires |x| == |y| == |z| == 4 && at + 12 <= output.Length && log == Range(0, at)
    modifies output
    ensures output[..at + 12] == old(output[..at]) + x + y + z && logged == Range(0, at + 12)
  {
    hide Range;
    logged := Copy(output, at, x, log);
    logged := Copy(output, at + 4, y, logged);
    logged := Copy(output, at + 8, z, logged);
  }

  method CopyRest(output: array<Byte>, at: nat, intensity: Byte, ring: seq<Byte>, ghost log: seq<nat>)
    returns (ghost logged: seq<nat>)
    requires |ring| == 2 && at + 4 <= output.Length && log == Range(0, at)
    modifies output
    ensures output[..at + 4] == old(output[..at]) + [intensity] + [SINGLE_STRONGEST_RETURN] + ring
    ensures logged == Range(0, at + 4)
  {
    hide Range;
    logged := Copy(output, at, [intensity], log);
    logged := Copy(output, at + 1, [SINGLE_STRONGEST_RETURN], logged);
    logged := Copy(output, at + 2, ring, logged);
  }

  lemma Joined(before: seq<Byte>, x: seq<Byte>, y: seq<Byte>, z: seq<Byte>, intensity: Byte, ring: seq<Byte>)
    ensures before + x + y + z + [intensity] + [SINGLE_STRONGEST_RETURN] + ring
         == before + (x + y + z + [intensity, SINGLE_STRONGEST_RETURN] + ring)
  {
  }

  /** `out` is the cloud in the normalised layout. */
  predicate IsRepacked(floatOf: FloatOf, cloud: Cloud, l: Layout, out: Cloud) {
    && Acceptable(cloud) && LayoutFits(cloud, l)
    && out == Cloud(cloud.header, cloud.height, cloud.width,
                    [Field("x", 0, 7, 1), Field("y", 4, 7, 1), Field("z", 8, 7, 1),
                     Field("intensity", 12, 2, 1), Field("return_type", 13, 2, 1), Field("channel", 14, 4, 1)],
                    false, 16, cloud.width * 16, Repacked(floatOf, cloud, l, cloud.height), cloud.dense)
  }

  /**
    * The conversion: refused exactly as `Check` says; otherwise the repacked cloud, every output
    * byte written exactly once and in order.
    */
  method Convert(floatOf: FloatOf, cloud: Cloud) returns (result: Result<Cloud>, ghost log: seq<nat>)
    requires cloud.Representable()
    ensures result.Err? <==> !Acceptable(cloud)
    ensures result.Err? ==> Check(cloud) == Err(result.failure) && RefusedFor(cloud, result.failure)
    ensures result.Ok? ==>
              && Check(cloud).Ok? && IsRepacked(floatOf, cloud, Check(cloud).value, result.value)
              && log == Range(0, |result.value.data|)
  {
    log := [];
    AcceptedExactly(cloud);
    if Check(cloud).Err? { RefusedExactly(cloud); }
    hide Check, Acceptable, RefusedFor;
    var checked := Check(cloud);
    if checked.Err? {
      return Err(checked.failure), log;
    }
    var data;
    data, log := RepackData(floatOf, cloud, checked.value);
    result := Ok(Cloud(cloud.header, cloud.height, cloud.width, OUTPUT_FIELDS, false, OUTPUT_STEP,
                       cloud.width * OUTPUT_STEP, data, cloud.dense));
  }

  method RepackData(floatOf: FloatOf, cloud: Cloud, l: Layout) returns (data: seq<Byte>, ghost log: seq<nat>)
    requires Acceptable(cloud) && LayoutFits(cloud, l)
    ensures data == Repacked(floatOf, cloud, l, cloud.height) && log == Range(0, |data|)
  {
    hide Acceptable, LayoutFits, RowBytes, Range;
    log := Range(0, 0);
    var rowStep := cloud.width * OUTPUT_STEP;
    var output := new Byte[RowStart(cloud.height, rowStep)](_ => 0);
    for row := 0 to cloud.height
      invariant RowStart(row, rowStep) <= output.Length
      invariant output[..RowStart(row, rowStep)] == Repacked(floatOf, cloud, l, row)
      invariant log == Range(0, RowStart(row, rowStep))
    {
      log := RepackRow(floatOf, cloud, l, row, output, log);
    }
    data := output[..];
    assert data == output[..RowStart(cloud.height, rowStep)];
  }

  method RepackRow(floatOf: FloatOf, cloud: Cloud, l: Layout, row: nat, output: array<Byte>, ghost log: seq<nat>)
    returns (ghost logged: seq<nat>)
    requires Acceptable(cloud) && LayoutFits(cloud, l) && row < cloud.height
    requires output.Length == RowStart(cloud.height, cloud.width * OUTPUT_STEP)
    requires RowStart(row, cloud.width * OUTPUT_STEP) <= output.Length
    requires output[..RowStart(row, cloud.width * OUTPUT_STEP)] == Repacked(floatOf, cloud, l, row)
    requires log == Range(0, RowStart(row, cloud.width * OUTPUT_STEP))
    modifies output
    ensures RowStart(row + 1, cloud.width * OUTPUT_STEP) <= output.Length
    ensures output[..RowStart(row + 1, cloud.width * OUTPUT_STEP)] == Repacked(floatOf, cloud, l, row + 1)
    ensures logged == Range(0, RowStart(row + 1, cloud.width * OUTPUT_STEP))
  {
    hide PointBytes, Acceptable, LayoutFits, Range, RowStart;
    NextStart(row, cloud.height, cloud.width * OUTPUT_STEP);
    var start := RowStart(row, cloud.width * OUTPUT_STEP);
    logged := log;
    for column := 0 to cloud.width
      invariant output[..start + column * OUTPUT_STEP]
             == Repacked(floatOf, cloud, l, row) + RowBytes(floatOf, cloud, l, row, column)
      invariant logged == Range(0, start + column * OUTPUT_STEP)
    {
      logged := CopyPoint(floatOf, cloud, l, row, column, output, start + column * OUTPUT_STEP, logged);
    }
  }

  lemma PiecesOfPoint(x: seq<Byte>, y: seq<Byte>, z: seq<Byte>, intensity: Byte, mark: Byte, ring: seq<Byte>)
    requires |x| == |y| == |z| == 4 && |ring| == 2
    ensures var p := x + y + z + [intensity, mark] + ring;
            Slice(p, 0, 4) == x && Slice(p, 4, 4) == y && Slice(p, 8, 4) == z
            && p[12] == intensity && p[13] == mark && Slice(p, 14, 2) == ring
  {
  }

  lemma PiecesOfPointBytes(floatOf: FloatOf, cloud: Cloud, l: Layout, row: nat, column: nat)
    requires Acceptable(cloud) && LayoutFits(cloud, l) && row < cloud.height && column < cloud.width
    ensures InputOffset(cloud, row, column) + cloud.pointStep <= |cloud.data|
    ensures var p, from := PointBytes(floatOf, cloud, l, row, column), InputOffset(cloud, row, column);
            && Slice(p, 0, 4) == Slice(cloud.data, from + l.x, 4)
            && Slice(p, 4, 4) == Slice(cloud.data, from + l.y, 4)
            && Slice(p, 8, 4) == Slice(cloud.data, from + l.z, 4)
            && p[12] == IntensityByte(floatOf(Slice(cloud.data, from + l.intensity, 4)))
            && p[13] == SINGLE_STRONGEST_RETURN
            && Slice(p, 14, 2) == Slice(cloud.data, from + l.ring, 2)
  {
    hide Acceptable, LayoutFits, InputOffset, IntensityByte, Slice;
    ReadsInBounds(cloud, row, column);
    LayoutBounds(cloud, l);
    var from, d := InputOffset(cloud, row, column), cloud.data;
    PiecesOfPoint(Slice(d, from + l.x, 4), Slice(d, from + l.y, 4), Slice(d, from + l.z, 4),
                  IntensityByte(floatOf(Slice(d, from + l.intensity, 4))), SINGLE_STRONGEST_RETURN,
                  Slice(d, from + l.ring, 2));
  }

  lemma PointAtPlace(floatOf: FloatOf, cloud: Cloud, l: Layout, out: Cloud, row: nat, column: nat)
    requires IsRepacked(floatOf, cloud, l, out) && row < cloud.height && column < cloud.width
    ensures var at, from := InputOffset(out, row, column), InputOffset(cloud, row, column);
            && at + OUTPUT_STEP <= |out.data| && from + cloud.pointStep <= |cloud.data|
            && Slice(out.data, at, 4) == Slice(cloud.data, from + l.x, 4)
            && Slice(out.data, at + 4, 4) == Slice(cloud.data, from + l.y, 4)
            && Slice(out.data, at + 8, 4) == Slice(cloud.data, from + l.z, 4)
            && out.data[at + 12] == IntensityByte(floatOf(Slice(cloud.data, from + l.intensity, 4)))
            && out.data[at + 13] == SINGLE_STRONGEST_RETURN
            && Slice(out.data, at + 14, 2) == Slice(cloud.data, from + l.ring, 2)
  {
    hide Acceptable, LayoutFits, Repacked, IntensityByte, Slice, PointBytes;
    PointInCloud(floatOf, cloud, l, row, column);
    LayoutBounds(cloud, l);
    PiecesOfPointBytes(floatOf, cloud, l, row, column);
    var at := InputOffset(out, row, column);
    SliceOfSlice(out.data, at, OUTPUT_STEP, 0, 4);
    SliceOfSlice(out.data, at, OUTPUT_STEP, 4, 4);
    SliceOfSlice(out.data, at, OUTPUT_STEP, 8, 4);
    SliceOfSlice(out.data, at, OUTPUT_STEP, 14, 2);
    SliceAt(out.data, at, OUTPUT_STEP, 12);
    SliceAt(out.data, at, OUTPUT_STEP, 13);
  }

  /** In the point at a row and column, the first field of this name starts with these bytes. */
  ghost predicate Holds(cloud: Cloud, row: nat, column: nat, name: string, bytes: seq<Byte>) {
    exists k: nat :: FirstNamed(cloud.fields, name, k) && HoldsAt(cloud, row, column, cloud.fields[k].offset, bytes)
  }

  predicate HoldsAt(cloud: Cloud, row: nat, column: nat, offset: nat, bytes: seq<Byte>) {
    var at := row * cloud.rowStep + column * cloud.pointStep + offset;
    at + |bytes| <= |cloud.data| && cloud.data[at..at + |bytes|] == bytes
  }

  /** The layout of an accepted cloud is where its named fields are. */
  lemma LayoutIsNamed(cloud: Cloud) returns (x: nat, y: nat, z: nat, intensity: nat, ring: nat)
    requires Check(cloud).Ok?
    ensures var l := Check(cloud).value;
            && FirstNamed(cloud.fields, "x", x) && cloud.fields[x].offset == l.x
            && FirstNamed(cloud.fields, "y", y) && cloud.fields[y].offset == l.y
            && FirstNamed(cloud.fields, "z", z) && cloud.fields[z].offset == l.z
            && FirstNamed(cloud.fields, "intensity", intensity) && cloud.fields[intensity].offset == l.intensity
            && FirstNamed(cloud.fields, "ring", ring) && cloud.fields[ring].offset == l.ring
  {
    x := FoundIsFirst(cloud.fields, "x");
    y := FoundIsFirst(cloud.fields, "y");
    z := FoundIsFirst(cloud.fields, "z");
    intensity := FoundIsFirst(cloud.fields, "intensity");
    ring := FoundIsFirst(cloud.fields, "ring");
    hide Find, RequiredBytes, OutputSize, Wrap, FirstNamed;
  }

  lemma OutputNames(out: Cloud)
    requires out.fields == [Field("x", 0, 7, 1), Field("y", 4, 7, 1), Field("z", 8, 7, 1),
                            Field("intensity", 12, 2, 1), Field("return_type", 13, 2, 1), Field("channel", 14, 4, 1)]
    ensures FirstNamed(out.fields, "x", 0) && FirstNamed(out.fields, "y", 1) && FirstNamed(out.fields, "z", 2)
    ensures FirstNamed(out.fields, "intensity", 3) && FirstNamed(out.fields, "return_type", 4)
    ensures FirstNamed(out.fields, "channel", 5)
  {
  }

  /**
    * For every point of an accepted cloud: under each name that the output announces stand the
    * bytes that the input holds under the matching name, the intensity normalised.
    */
  lemma RepackedPoint(floatOf: FloatOf, cloud: Cloud, out: Cloud, row: nat, column: nat)
    returns (x: seq<Byte>, y: seq<Byte>, z: seq<Byte>, intensity: seq<Byte>, ring: seq<Byte>)
    requires cloud.Representable() && Check(cloud).Ok? && IsRepacked(floatOf, cloud, Check(cloud).value, out)
    requires row < cloud.height && column < cloud.width
    ensures |x| == |y| == |z| == |intensity| == 4 && |ring| == 2
    ensures Holds(cloud, row, column, "x", x) && Holds(out, row, column, "x", x)
    ensures Holds(cloud, row, column, "y", y) && Holds(out, row, column, "y", y)
    ensures Holds(cloud, row, column, "z", z) && Holds(out, row, column, "z", z)
    ensures Holds(cloud, row, column, "intensity", intensity)
    ensures Holds(out, row, column, "intensity", [NormalizeIntensity(floatOf(intensity)) as Byte])
    ensures Holds(out, row, column, "return_type", [1])
    ensures Holds(cloud, row, column, "ring", ring) && Holds(out, row, column, "channel", ring)
  {
    hide Check, Acceptable, LayoutFits, Repacked, Holds, InputOffset, NormalizeIntensity, Slice;
    var l := Check(cloud).value;
    PointAtPlace(floatOf, cloud, l, out, row, column);
    LayoutBounds(cloud, l);
    var from, d := InputOffset(cloud, row, column), cloud.data;
    x, y, z := Slice(d, from + l.x, 4), Slice(d, from + l.y, 4), Slice(d, from + l.z, 4);
    intensity, ring := Slice(d, from + l.intensity, 4), Slice(d, from + l.ring, 2);
    InputHolds(cloud, row, column);
    OutputHolds(out, row, column);
  }

  lemma InputHolds(cloud: Cloud, row: nat, column: nat)
    requires Check(cloud).Ok? && LayoutFits(cloud, Check(cloud).value)
    requires InputOffset(cloud, row, column) + cloud.pointStep <= |cloud.data|
    ensures var l, from, d := Check(cloud).value, InputOffset(cloud, row, column), cloud.data;
            && Holds(cloud, row, column, "x", Slice(d, from + l.x, 4))
            && Holds(cloud, row, column, "y", Slice(d, from + l.y, 4))
            && Holds(cloud, row, column, "z", Slice(d, from + l.z, 4))
            && Holds(cloud, row, column, "intensity", Slice(d, from + l.intensity, 4))
            && Holds(cloud, row, column, "ring", Slice(d, from + l.ring, 2))
  {
    hide Check, FirstNamed, HoldsAt, InputOffset, Slice;
    var l := Check(cloud).value;
    var x, y, z, intensity, ring := LayoutIsNamed(cloud);
    SliceHeld(cloud, row, column, l.x, 4);
    SliceHeld(cloud, row, column, l.y, 4);
    SliceHeld(cloud, row, column, l.z, 4);
    SliceHeld(cloud, row, column, l.intensity, 4);
    SliceHeld(cloud, row, column, l.ring, 2);
  }

  lemma SliceHeld(cloud: Cloud, row: nat, column: nat, offset: nat, size: nat)
    requires InputOffset(cloud, row, column) + offset + size <= |cloud.data|
    ensures HoldsAt(cloud, row, column, offset, Slice(cloud.data, InputOffset(cloud, row, column) + offset, size))
  {
  }

  lemma OutputHolds(out: Cloud, row: nat, column: nat)
    requires out.fields == [Field("x", 0, 7, 1), Field("y", 4, 7, 1), Field("z", 8, 7, 1),
                            Field("intensity", 12, 2, 1), Field("return_type", 13, 2, 1), Field("channel", 14, 4, 1)]
    requires InputOffset(out, row, column) + 16 <= |out.data|
    ensures var at, d := InputOffset(out, row, column), out.data;
            && Holds(out, row, column, "x", Slice(d, at, 4)) && Holds(out, row, column, "y", Slice(d, at + 4, 4))
            && Holds(out, row, column, "z", Slice(d, at + 8, 4)) && Holds(out, row, column, "intensity", [d[at + 12]])
            && Holds(out, row, column, "return_type", [d[at + 13]]) && Holds(out, row, column, "channel", Slice(d, at + 14, 2))
  {
    hide InputOffset, FirstNamed, HoldsAt;
    OutputNames(out);
    SliceHeld(out, row, column, 0, 4);
    SliceHeld(out, row, column, 4, 4);
    SliceHeld(out, row, column, 8, 4);
    SliceHeld(out, row, column, 12, 1);
    SliceHeld(out, row, column, 13, 1);
    SliceHeld(out, row, column, 14, 2);
    var at := InputOffset(out, row, column);
    assert Slice(out.data, at + 12, 1) == [out.data[at + 12]] && Slice(out.data, at + 13, 1) == [out.data[at + 13]];
  }

  lemma SliceAt(data: seq<Byte>, at: nat, size: nat, i: nat)
    requires at + size <= |data| && i < size
    ensures Slice(data, at, size)[i] == data[at + i]
  {
  }
}
