/** One point record: packed by the writer, read back column by column (copc-writer/src/writer.rs, copc-reader/src/points.rs). */
module PointRecord {
  import opened Core
  import opened Voxel
  import opened Codec

  const OVERLAP_CLASSIFICATION_CODE := 12
  const LAS_14_SCAN_ANGLE_SCALE := 0.006

  type int16 = x: int | -0x8000 <= x < 0x8000

  /** One point as the writer takes it; GPS time is an opaque 64-bit word. */
  datatype PointFields = PointFields(
    x: real, y: real, z: real, intensity: uint16, returnNumber: byte, numberOfReturns: byte,
    synthetic: byte, keyPoint: byte, withheld: byte, overlap: byte, scanChannel: byte,
    scanDirectionFlag: byte, edgeOfFlightLine: byte, classification: byte, userData: byte,
    scanAngle: real, pointSourceId: uint16, gpsTime: uint64,
    red: uint16, green: uint16, blue: uint16, extraBytes: seq<byte>)

  /** Scale and offset of one axis; scales are positive. */
  datatype Axis = Axis(scale: real, offset: real) {
    predicate Valid() {
      scale > 0.0
    }
  }

  datatype Transform = Transform(x: Axis, y: Axis, z: Axis) {
    predicate Valid() {
      x.Valid() && y.Valid() && z.Valid()
    }
  }

  /** Point formats 6 and 7 with any number of extra bytes. */
  datatype Format = Format(hasColor: bool, extraLen: nat) {
    function ExtraOffset(): nat {
      if hasColor then 36 else 30
    }

    function Len(): nat {
      ExtraOffset() + extraLen
    }
  }

  // Bits --------------------------------------------------------------------

  function BitOr(a: nat, b: nat): nat {
    if a == 0 && b == 0 then 0
    else (if a % 2 == 1 || b % 2 == 1 then 1 else 0) + 2 * BitOr(a / 2, b / 2)
  }

  function BitAnd(a: nat, b: nat): nat {
    if a == 0 || b == 0 then 0
    else (if a % 2 == 1 && b % 2 == 1 then 1 else 0) + 2 * BitAnd(a / 2, b / 2)
  }

  /** `a << k` on a byte: bits pushed out are lost. */
  function ShlByte(a: byte, k: nat): byte {
    a * Pow2(k) % 256
  }

  lemma {:induction false} BitOrZero(a: nat)
    ensures BitOr(a, 0) == a && BitOr(0, a) == a
  {
    if a > 0 {
      BitOrZero(a / 2);
    }
  }

  /** Or-ing bits above the `k` low ones into them adds them. */
  lemma {:induction false} OrAbove(a: nat, b: nat, k: nat)
    requires a < Pow2(k)
    ensures BitOr(a, Pow2(k) * b) == a + Pow2(k) * b
  {
    if k == 0 {
      BitOrZero(b);
    } else {
      var p := Pow2(k - 1);
      assert Pow2(k) * b == 2 * (p * b);
      OrAbove(a / 2, b, k - 1);
      if a == 0 && b == 0 {
        assert BitOr(0, 0) == 0;
      } else {
        assert (2 * (p * b)) % 2 == 0 && (2 * (p * b)) / 2 == p * b;
      }
    }
  }

  lemma AndStep(a: nat, b: nat)
    ensures BitAnd(a, b) == (if a % 2 == 1 && b % 2 == 1 then 1 else 0) + 2 * BitAnd(a / 2, b / 2)
    ensures BitAnd(a, 0) == 0
  {
  }

  lemma Remainders(k: nat, r: nat)
    ensures r < 4 ==> (4 * k + r) % 4 == r
    ensures r < 8 ==> (8 * k + r) % 8 == r
    ensures r < 16 ==> (16 * k + r) % 16 == r
  {
  }

  lemma HalfMod(a: nat)
    ensures a % 4 == a % 2 + 2 * (a / 2 % 2)
    ensures a % 8 == a % 2 + 2 * (a / 2 % 4)
    ensures a % 16 == a % 2 + 2 * (a / 2 % 8)
  {
    var h, b := a / 2, a % 2;
    Remainders(h / 2, b + 2 * (h % 2));
    Remainders(h / 4, b + 2 * (h % 4));
    Remainders(h / 8, b + 2 * (h % 8));
    assert a == 4 * (h / 2) + (b + 2 * (h % 2));
    assert a == 8 * (h / 4) + (b + 2 * (h % 4));
    assert a == 16 * (h / 8) + (b + 2 * (h % 8));
  }

  lemma AndOdd(a: nat, b: nat)
    requires b % 2 == 1
    ensures BitAnd(a, b) == a % 2 + 2 * BitAnd(a / 2, b / 2)
  {
    AndStep(a, b);
  }

  lemma And1(a: nat)
    ensures BitAnd(a, 1) == a % 2
  {
    hide BitAnd;
    AndOdd(a, 1);
    AndStep(a / 2, 0);
  }

  lemma And3(a: nat)
    ensures BitAnd(a, 3) == a % 4
  {
    hide BitAnd;
    AndOdd(a, 3);
    And1(a / 2);
    HalfMod(a);
  }

  lemma And7(a: nat)
    ensures BitAnd(a, 7) == a % 8
  {
    hide BitAnd;
    AndOdd(a, 7);
    And3(a / 2);
    HalfMod(a);
  }

  /** And-ing with the reader's widest low-bit mask keeps the remainder. */
  lemma And15(a: nat)
    ensures BitAnd(a, 15) == a % 16
  {
    hide BitAnd;
    AndOdd(a, 15);
    And7(a / 2);
    HalfMod(a);
  }

  /** And-ing with a single bit keeps that bit in place. */
  lemma BitMasks(a: nat)
    ensures BitAnd(a, 2) == 2 * (a / 2 % 2) && BitAnd(a, 4) == 4 * (a / 4 % 2) && BitAnd(a, 8) == 8 * (a / 8 % 2)
  {
    hide BitAnd;
    And1(a / 2);
    And1(a / 4);
    And1(a / 8);
    AndStep(a, 2);
    AndStep(a, 4);
    AndStep(a / 2, 2);
    AndStep(a, 8);
    AndStep(a / 2, 4);
    AndStep(a / 4, 2);
  }

  // Quantization ------------------------------------------------------------

  /** `f64::round`: to the nearest integer, halves away from zero. */
  function Round(v: real): int {
    if v >= 0.0 then (v + 0.5).Floor else -((0.5 - v).Floor)
  }

  lemma RoundIsNear(v: real)
    ensures -0.5 <= Round(v) as real - v <= 0.5
  {
  }

  /** `quantize_axis` */
  function QuantizeAxis(value: real, axis: Axis): Result<int32>
    requires axis.Valid()
  {
    var scaled := Round((value - axis.offset) / axis.scale);
    if scaled < -0x8000_0000 || scaled > INT32_MAX then Err(InvalidInput) else Ok(scaled)
  }

  /** The reader's transform back. */
  function Direct(raw: int32, axis: Axis): real {
    axis.scale * raw as real + axis.offset
  }

  /** A coordinate that encodes comes back within half a scale step. */
  lemma AxisRoundTrip(value: real, axis: Axis)
    requires axis.Valid() && QuantizeAxis(value, axis).Ok?
    ensures var back := Direct(QuantizeAxis(value, axis).value, axis);
      -(axis.scale * 0.5) <= back - value <= axis.scale * 0.5
  {
    var t := (value - axis.offset) / axis.scale;
    RoundIsNear(t);
    UnscaledIsNear(value, axis.scale, axis.offset, Round(t) as real);
  }

  /** A product opaque to the arithmetic around it. */
  function Times(a: real, b: real): real {
    a * b
  }

  lemma TimesSum(scale: real, t: real, d: real)
    ensures Times(scale, t + d) == Times(scale, t) + Times(scale, d)
  {
  }

  lemma TimesQuotient(scale: real, v: real)
    requires scale > 0.0
    ensures Times(scale, v / scale) == v
  {
  }

  lemma TimesNonNegative(a: real, b: real)
    requires a > 0.0 && b >= 0.0
    ensures Times(a, b) >= 0.0
  {
  }

  lemma TimesHalf(scale: real)
    ensures Times(scale, 0.5) == scale * 0.5 && Times(scale, 0.0) == 0.0
  {
  }

  lemma TimesBetween(scale: real, d: real)
    requires scale > 0.0 && -0.5 <= d <= 0.5
    ensures -(scale * 0.5) <= Times(scale, d) <= scale * 0.5
  {
    hide Times;
    TimesHalf(scale);
    TimesNonNegative(scale, d + 0.5);
    TimesNonNegative(scale, 0.5 - d);
    TimesSum(scale, d, 0.5);
    TimesSum(scale, d, 0.5 - d);
    assert d + (0.5 - d) == 0.5;
  }

  lemma UnscaledIsNear(value: real, scale: real, offset: real, n: real)
    requires scale > 0.0 && -0.5 <= n - (value - offset) / scale <= 0.5
    ensures -(scale * 0.5) <= (Times(scale, n) + offset) - value <= scale * 0.5
  {
    hide Times;
    var t := (value - offset) / scale;
    var d := n - t;
    TimesQuotient(scale, value - offset);
    TimesSum(scale, t, d);
    TimesBetween(scale, d);
    assert t + d == n;
  }

  /** Coordinates already on the grid come back exactly. */
  lemma GridRoundTrip(n: int32, axis: Axis)
    requires axis.Valid()
    ensures QuantizeAxis(Direct(n, axis), axis) == Ok(n)
  {
    var v := Direct(n, axis) - axis.offset;
    DivideBack(v, axis.scale, n as real);
    assert Round(v / axis.scale) == n by {
      RoundInteger(n);
    }
  }

  lemma RoundInteger(n: int)
    ensures Round(n as real) == n
  {
  }

  lemma DivideBack(v: real, scale: real, n: real)
    requires scale > 0.0 && v == scale * n
    ensures v / scale == n
  {
  }

  predicate ScanAngleValid(angle: real) {
    -32768.0 <= angle / LAS_14_SCAN_ANGLE_SCALE <= 32767.0
  }

  /** `scan_angle_to_las_scaled`, with the saturating cast. */
  function ScanAngleToLasScaled(angle: real): int16 {
    var n := Round(angle / LAS_14_SCAN_ANGLE_SCALE);
    if n > 32767 then 32767 else if n < -32768 then -32768 else n
  }

  lemma ScanAngleRoundTrip(angle: real)
    requires ScanAngleValid(angle)
    ensures -0.003 <= ScanAngleToLasScaled(angle) as real * LAS_14_SCAN_ANGLE_SCALE - angle <= 0.003
  {
    RoundIsNear(angle / LAS_14_SCAN_ANGLE_SCALE);
  }

  // Encoding ----------------------------------------------------------------

  /** `validate_point_flags`, `validate_scan_angle` and the extra-byte check. */
  predicate Validated(f: PointFields, format: Format) {
    && f.returnNumber <= 15 && f.numberOfReturns <= 15
    && f.synthetic <= 1 && f.keyPoint <= 1 && f.withheld <= 1 && f.overlap <= 1
    && f.scanChannel <= 3 && f.scanDirectionFlag <= 1 && f.edgeOfFlightLine <= 1
    && ScanAngleValid(f.scanAngle) && |f.extraBytes| == format.extraLen
  }

  predicate Quantizes(f: PointFields, t: Transform)
    requires t.Valid()
  {
    QuantizeAxis(f.x, t.x).Ok? && QuantizeAxis(f.y, t.y).Ok? && QuantizeAxis(f.z, t.z).Ok?
  }

  function ReturnByte(f: PointFields): (b: nat) {
    BitOr(f.returnNumber, ShlByte(f.numberOfReturns, 4))
  }

  function FlagByte(f: PointFields): (b: nat) {
    BitOr(BitOr(BitOr(BitOr(BitOr(BitOr(f.synthetic, ShlByte(f.keyPoint, 1)), ShlByte(f.withheld, 2)), ShlByte(f.overlap, 3)),
      ShlByte(f.scanChannel, 4)), ShlByte(f.scanDirectionFlag, 6)), ShlByte(f.edgeOfFlightLine, 7))
  }

  lemma SmallPowers()
    ensures Pow2(0) == 1 && Pow2(1) == 2 && Pow2(2) == 4 && Pow2(3) == 8 && Pow2(4) == 16 && Pow2(5) == 32
    ensures Pow2(6) == 64 && Pow2(7) == 128 && Pow2(8) == 256
  {
    assert Pow2(3) == 8;
    assert Pow2(6) == 64;
  }

  /** Validated fields do not share bits, so the packed bytes are plain sums. */
  lemma PackedBytes(f: PointFields, format: Format)
    requires Validated(f, format)
    ensures ReturnByte(f) == f.returnNumber + 16 * f.numberOfReturns
    ensures FlagByte(f) == f.synthetic + 2 * f.keyPoint + 4 * f.withheld + 8 * f.overlap + 16 * f.scanChannel
                           + 64 * f.scanDirectionFlag + 128 * f.edgeOfFlightLine
  {
    hide BitOr, Pow2;
    SmallPowers();
    OrAbove(f.returnNumber, f.numberOfReturns, 4);
    var b1 := f.synthetic + 2 * f.keyPoint;
    var b2 := b1 + 4 * f.withheld;
    var b3 := b2 + 8 * f.overlap;
    var b4 := b3 + 16 * f.scanChannel;
    var b5 := b4 + 64 * f.scanDirectionFlag;
    OrAbove(f.synthetic, f.keyPoint, 1);
    OrAbove(b1, f.withheld, 2);
    OrAbove(b2, f.overlap, 3);
    OrAbove(b3, f.scanChannel, 4);
    OrAbove(b4, f.scanDirectionFlag, 6);
    OrAbove(b5, f.edgeOfFlightLine, 7);
  }

  function I16Le(v: int16): (bytes: seq<byte>)
    ensures |bytes| == 2
  {
    ToLe(if v < 0 then v + 0x1_0000 else v, 2)
  }

  function ColorBytes(f: PointFields, format: Format): (bytes: seq<byte>)
    ensures |bytes| == format.ExtraOffset() - 30
  {
    if format.hasColor then U16Le(f.red) + U16Le(f.green) + U16Le(f.blue) else []
  }

  function ByteOf(n: nat): byte {
    n % 256
  }

  function PositionBytes(f: PointFields, t: Transform): (bytes: seq<byte>)
    requires t.Valid() && Quantizes(f, t)
    ensures |bytes| == 12
  {
    I32Le(QuantizeAxis(f.x, t.x).value) + I32Le(QuantizeAxis(f.y, t.y).value) + I32Le(QuantizeAxis(f.z, t.z).value)
  }

  function AttributeBytes(f: PointFields): (bytes: seq<byte>)
    ensures |bytes| == 18
  {
    U16Le(f.intensity) + [ByteOf(ReturnByte(f))] + [ByteOf(FlagByte(f))] + [f.classification] + [f.userData]
    + I16Le(ScanAngleToLasScaled(f.scanAngle)) + U16Le(f.pointSourceId) + ToLe(f.gpsTime, 8)
  }

  /** The record of a point whose coordinates quantize, field after field. */
  function RecordBytes(f: PointFields, t: Transform, format: Format): (bytes: seq<byte>)
    requires t.Valid() && Quantizes(f, t)
    ensures |bytes| == format.ExtraOffset() + |f.extraBytes|
  {
    PositionBytes(f, t) + AttributeBytes(f) + ColorBytes(f, format) + f.extraBytes
  }

  method PutPosition(buf: array<byte>, f: PointFields, t: Transform) returns (r: Result<()>)
    requires t.Valid() && buf.Length >= 30
    modifies buf
    ensures r.Ok? <==> Quantizes(f, t)
    ensures r.Ok? ==> buf[..12] == PositionBytes(f, t)
    ensures r.Err? ==> buf[..] == old(buf[..])
  {
    hide I32Le, QuantizeAxis;
    var x, y, z := QuantizeAxis(f.x, t.x), QuantizeAxis(f.y, t.y), QuantizeAxis(f.z, t.z);
    if x.Err? || y.Err? || z.Err? {
      return Err(InvalidInput);
    }
    PutNext(buf, 0, I32Le(x.value));
    PutNext(buf, 4, I32Le(y.value));
    PutNext(buf, 8, I32Le(z.value));
    return Ok(());
  }

  method PutAttributes(buf: array<byte>, f: PointFields)
    requires buf.Length >= 30
    modifies buf
    ensures buf[..30] == old(buf[..12]) + AttributeBytes(f)
  {
    hide ToLe, U16Le, I16Le, ReturnByte, FlagByte, ScanAngleToLasScaled, ByteOf;
    ghost var start := buf[..12];
    PutNext(buf, 12, U16Le(f.intensity));
    PutNext(buf, 14, [ByteOf(ReturnByte(f))]);
    PutNext(buf, 15, [ByteOf(FlagByte(f))]);
    PutNext(buf, 16, [f.classification]);
    PutNext(buf, 17, [f.userData]);
    ghost var first := U16Le(f.intensity) + [ByteOf(ReturnByte(f))] + [ByteOf(FlagByte(f))] + [f.classification] + [f.userData];
    assert buf[..18] == start + first;
    PutNext(buf, 18, I16Le(ScanAngleToLasScaled(f.scanAngle)));
    PutNext(buf, 20, U16Le(f.pointSourceId));
    PutNext(buf, 22, ToLe(f.gpsTime, 8));
    assert buf[..30] == start + first + (I16Le(ScanAngleToLasScaled(f.scanAngle)) + U16Le(f.pointSourceId) + ToLe(f.gpsTime, 8));
  }

  method PutColor(buf: array<byte>, f: PointFields, format: Format)
    requires buf.Length >= format.ExtraOffset()
    modifies buf
    ensures buf[..format.ExtraOffset()] == old(buf[..30]) + ColorBytes(f, format)
  {
    hide U16Le;
    if format.hasColor {
      PutNext(buf, 30, U16Le(f.red));
      PutNext(buf, 32, U16Le(f.green));
      PutNext(buf, 34, U16Le(f.blue));
    }
  }

  /** `encode_point_record`: fills a buffer of the record's length. */
  method EncodePointRecord(buf: array<byte>, f: PointFields, t: Transform, format: Format) returns (r: Result<()>)
    requires t.Valid() && buf.Length == format.Len()
    modifies buf
    ensures r.Ok? <==> Quantizes(f, t) && |f.extraBytes| == format.extraLen
    ensures r.Ok? ==> buf[..] == RecordBytes(f, t, format)
    ensures !Quantizes(f, t) ==> buf[..] == old(buf[..])
  {
    hide PositionBytes, AttributeBytes, ColorBytes, Quantizes;
    var placed := PutPosition(buf, f, t);
    if placed.Err? {
      return placed;
    }
    PutAttributes(buf, f);
    PutColor(buf, f, format);
    var cursor := format.ExtraOffset();
    if |f.extraBytes| != buf.Length - cursor {
      return Err(InvalidInput);
    }
    PutNext(buf, cursor, f.extraBytes);
    assert buf[..] == buf[..buf.Length];
    return Ok(());
  }

  // Decoding ----------------------------------------------------------------

  /** One row of every column the reader fills for formats 6 and 7. */
  datatype Row = Row(
    x: real, y: real, z: real, intensity: uint16, returnNumber: nat, numberOfReturns: nat,
    synthetic: bool, keyPoint: bool, withheld: bool, overlap: bool, scanChannel: nat,
    scanDirectionFlag: bool, edgeOfFlightLine: bool, classification: byte, userData: byte,
    scanAngle: real, pointSourceId: uint16, gpsTime: uint64,
    red: uint16, green: uint16, blue: uint16, extraBytes: seq<byte>)

  function I16At(src: seq<byte>, at: nat): int16
    requires at + 2 <= |src|
  {
    var u := U16At(src, at);
    if u >= 0x8000 then u - 0x1_0000 else u
  }

  /** `append_columns` for one record. */
  function DecodeRow(buf: seq<byte>, t: Transform, format: Format): Row
    requires |buf| == format.Len()
  {
    Row(
      Direct(I32At(buf, 0), t.x), Direct(I32At(buf, 4), t.y), Direct(I32At(buf, 8), t.z),
      U16At(buf, 12), BitAnd(buf[14], 15), BitAnd(Shr(buf[14], 4), 15),
      BitAnd(buf[15], 1) == 1, BitAnd(buf[15], 2) == 2, BitAnd(buf[15], 4) == 4, BitAnd(buf[15], 8) == 8,
      BitAnd(Shr(buf[15], 4), 3), BitAnd(Shr(buf[15], 6), 1) == 1, Shr(buf[15], 7) == 1,
      if buf[16] == OVERLAP_CLASSIFICATION_CODE then 1 else buf[16], buf[17],
      I16At(buf, 18) as real * LAS_14_SCAN_ANGLE_SCALE, U16At(buf, 20), U64At(buf, 22),
      if format.hasColor then U16At(buf, 30) else 0,
      if format.hasColor then U16At(buf, 32) else 0,
      if format.hasColor then U16At(buf, 34) else 0,
      buf[format.ExtraOffset()..])
  }

  lemma I16RoundTrip(v: int16)
    ensures FromLe(I16Le(v)) == if v < 0 then v + 0x1_0000 else v
  {
    Widths();
    LeRoundTrip(if v < 0 then v + 0x1_0000 else v, 2);
  }

  /** Where the parts lie in the record. */
  lemma RecordParts(f: PointFields, t: Transform, format: Format)
    requires t.Valid() && Quantizes(f, t)
    ensures var b := RecordBytes(f, t, format); var n := format.ExtraOffset();
      && b[0..12] == PositionBytes(f, t) && b[12..30] == AttributeBytes(f)
      && b[30..n] == ColorBytes(f, format) && b[n..] == f.extraBytes
  {
    hide PositionBytes, AttributeBytes, ColorBytes;
  }

  lemma PositionSlices(f: PointFields, t: Transform, b: seq<byte>)
    requires t.Valid() && Quantizes(f, t) && |b| >= 30 && b[0..12] == PositionBytes(f, t)
    ensures b[0..4] == I32Le(QuantizeAxis(f.x, t.x).value)
    ensures b[4..8] == I32Le(QuantizeAxis(f.y, t.y).value)
    ensures b[8..12] == I32Le(QuantizeAxis(f.z, t.z).value)
  {
    hide I32Le, QuantizeAxis;
    var p := PositionBytes(f, t);
    SliceOfSlice(b, 0, 12, 0, 4);
    SliceOfSlice(b, 0, 12, 4, 8);
    SliceOfSlice(b, 0, 12, 8, 12);
    assert p[0..4] == I32Le(QuantizeAxis(f.x, t.x).value);
    assert p[4..8] == I32Le(QuantizeAxis(f.y, t.y).value);
    assert p[8..12] == I32Le(QuantizeAxis(f.z, t.z).value);
  }

  lemma AttributeSlices(f: PointFields, b: seq<byte>)
    requires |b| >= 30 && b[12..30] == AttributeBytes(f)
    ensures b[12..14] == U16Le(f.intensity)
    ensures b[14] == ByteOf(ReturnByte(f)) && b[15] == ByteOf(FlagByte(f)) && b[16] == f.classification && b[17] == f.userData
    ensures b[18..20] == I16Le(ScanAngleToLasScaled(f.scanAngle)) && b[20..22] == U16Le(f.pointSourceId)
    ensures b[22..30] == ToLe(f.gpsTime, 8)
  {
    hide ToLe, U16Le, I16Le, ReturnByte, FlagByte, ScanAngleToLasScaled, ByteOf;
    var p := AttributeBytes(f);
    assert b[14] == b[12..30][2] && b[15] == b[12..30][3] && b[16] == b[12..30][4] && b[17] == b[12..30][5];
    SliceOfSlice(b, 12, 30, 0, 2);
    SliceOfSlice(b, 12, 30, 6, 8);
    SliceOfSlice(b, 12, 30, 8, 10);
    SliceOfSlice(b, 12, 30, 10, 18);
    assert p[0..2] == U16Le(f.intensity) && p[6..8] == I16Le(ScanAngleToLasScaled(f.scanAngle));
    assert p[8..10] == U16Le(f.pointSourceId) && p[10..18] == ToLe(f.gpsTime, 8);
  }

  /** Where each field lies in the record. */
  lemma RecordSlices(f: PointFields, t: Transform, format: Format)
    requires t.Valid() && Quantizes(f, t)
    ensures var b := RecordBytes(f, t, format);
      && b[0..4] == I32Le(QuantizeAxis(f.x, t.x).value)
      && b[4..8] == I32Le(QuantizeAxis(f.y, t.y).value)
      && b[8..12] == I32Le(QuantizeAxis(f.z, t.z).value)
      && b[12..14] == U16Le(f.intensity)
      && b[14] == ByteOf(ReturnByte(f)) && b[15] == ByteOf(FlagByte(f)) && b[16] == f.classification && b[17] == f.userData
      && b[18..20] == I16Le(ScanAngleToLasScaled(f.scanAngle)) && b[20..22] == U16Le(f.pointSourceId)
      && b[22..30] == ToLe(f.gpsTime, 8)
      && b[30..format.ExtraOffset()] == ColorBytes(f, format)
      && b[format.ExtraOffset()..] == f.extraBytes
  {
    hide I32Le, ToLe, U16Le, I16Le, QuantizeAxis, ReturnByte, FlagByte, ScanAngleToLasScaled, ColorBytes, ByteOf,
      PositionBytes, AttributeBytes, RecordBytes;
    var b := RecordBytes(f, t, format);
    RecordParts(f, t, format);
    PositionSlices(f, t, b);
    AttributeSlices(f, b);
  }

  lemma ColorSlices(f: PointFields, format: Format, b: seq<byte>)
    requires format.hasColor && |b| >= 36 && b[30..36] == ColorBytes(f, format)
    ensures b[30..32] == U16Le(f.red) && b[32..34] == U16Le(f.green) && b[34..36] == U16Le(f.blue)
  {
    hide U16Le;
    var c := ColorBytes(f, format);
    SliceOfSlice(b, 30, 36, 0, 2);
    SliceOfSlice(b, 30, 36, 2, 4);
    SliceOfSlice(b, 30, 36, 4, 6);
    assert c[0..2] == U16Le(f.red) && c[2..4] == U16Le(f.green) && c[4..6] == U16Le(f.blue);
  }

  lemma ShrStep(a: nat, k: nat)
    ensures Shr(a, 0) == a && Shr(a, k + 1) == Shr(a / 2, k)
  {
  }

  lemma Halves(a: nat)
    ensures a / 2 / 2 == a / 4 && a / 4 / 2 == a / 8 && a / 8 / 2 == a / 16
    ensures a / 16 / 2 == a / 32 && a / 32 / 2 == a / 64 && a / 64 / 2 == a / 128
  {
  }

  /** The shifts the reader uses. */
  lemma ShrSmall(a: nat)
    ensures Shr(a, 4) == a / 16 && Shr(a, 6) == a / 64 && Shr(a, 7) == a / 128
  {
    hide Shr;
    Halves(a);
    Shr4(a);
    Shr4(a / 4);
    ShrStep(a, 5);
    ShrStep(a / 2, 4);
    ShrStep(a, 6);
    ShrStep(a / 2, 5);
    ShrStep(a / 4, 4);
    Shr4(a / 8);
    Halves(a / 4);
    Halves(a / 8);
  }

  lemma Shr4(a: nat)
    ensures Shr(a, 4) == a / 16
  {
    hide Shr;
    Halves(a);
    ShrStep(a, 3);
    ShrStep(a / 2, 2);
    ShrStep(a / 4, 1);
    ShrStep(a / 8, 0);
    ShrStep(a / 16, 0);
  }

  /** The return and flag fields come back from their packed bytes. */
  ghost predicate FlagsMatch(row: Row, f: PointFields) {
    && row.returnNumber == f.returnNumber && row.numberOfReturns == f.numberOfReturns
    && row.synthetic == (f.synthetic == 1) && row.keyPoint == (f.keyPoint == 1)
    && row.withheld == (f.withheld == 1) && row.overlap == (f.overlap == 1)
    && row.scanChannel == f.scanChannel
    && row.scanDirectionFlag == (f.scanDirectionFlag == 1) && row.edgeOfFlightLine == (f.edgeOfFlightLine == 1)
  }

  /** A sum of bits splits back into them. */
  lemma SumOfBits(b: nat, b0: nat, b1: nat, b2: nat, b3: nat, two: nat, b6: nat, b7: nat)
    requires b0 <= 1 && b1 <= 1 && b2 <= 1 && b3 <= 1 && two <= 3 && b6 <= 1 && b7 <= 1
    requires b == b0 + 2 * b1 + 4 * b2 + 8 * b3 + 16 * two + 64 * b6 + 128 * b7
    ensures b % 2 == b0 && b / 2 % 2 == b1 && b / 4 % 2 == b2 && b / 8 % 2 == b3
    ensures b / 16 % 4 == two && b / 64 % 2 == b6 && b / 128 == b7 && b < 256
  {
    var r3 := b3 + 2 * two + 8 * b6 + 16 * b7;
    var r2 := b2 + 2 * r3;
    var r1 := b1 + 2 * r2;
    assert b == b0 + 2 * r1 && b / 2 == r1;
    assert r1 / 2 == r2 && b / 4 == r2;
    assert b / 8 == r3;
    assert b / 16 == two + 4 * b6 + 8 * b7;
    assert b / 64 == b6 + 2 * b7;
  }

  lemma ReturnsRoundTrip(f: PointFields, format: Format, a: byte)
    requires Validated(f, format) && a == ByteOf(ReturnByte(f))
    ensures BitAnd(a, 15) == f.returnNumber && BitAnd(Shr(a, 4), 15) == f.numberOfReturns
  {
    hide BitAnd, Shr, ReturnByte, FlagByte, ScanAngleValid;
    PackedBytes(f, format);
    And15(a);
    Shr4(a);
    And15(a / 16);
  }

  /** What the reader's masks and shifts find in a sum of bits. */
  lemma BitsRead(b: nat, b0: nat, b1: nat, b2: nat, b3: nat, two: nat, b6: nat, b7: nat)
    requires b0 <= 1 && b1 <= 1 && b2 <= 1 && b3 <= 1 && two <= 3 && b6 <= 1 && b7 <= 1
    requires b == b0 + 2 * b1 + 4 * b2 + 8 * b3 + 16 * two + 64 * b6 + 128 * b7
    ensures BitAnd(b, 1) == b0 && BitAnd(b, 2) == 2 * b1 && BitAnd(b, 4) == 4 * b2 && BitAnd(b, 8) == 8 * b3
    ensures BitAnd(Shr(b, 4), 3) == two && BitAnd(Shr(b, 6), 1) == b6 && Shr(b, 7) == b7 && b < 256
  {
    hide BitAnd, Shr;
    SumOfBits(b, b0, b1, b2, b3, two, b6, b7);
    And1(b);
    BitMasks(b);
    ShrSmall(b);
    And3(b / 16);
    And1(b / 64);
  }

  lemma FlagsRoundTrip(f: PointFields, format: Format, b: byte)
    requires Validated(f, format) && b == ByteOf(FlagByte(f))
    ensures BitAnd(b, 1) == f.synthetic && BitAnd(b, 2) == 2 * f.keyPoint && BitAnd(b, 4) == 4 * f.withheld
    ensures BitAnd(b, 8) == 8 * f.overlap && BitAnd(Shr(b, 4), 3) == f.scanChannel
    ensures BitAnd(Shr(b, 6), 1) == f.scanDirectionFlag && Shr(b, 7) == f.edgeOfFlightLine
  {
    hide BitAnd, Shr, ReturnByte, FlagByte, ScanAngleValid;
    PackedBytes(f, format);
    BitsRead(FlagByte(f), f.synthetic, f.keyPoint, f.withheld, f.overlap, f.scanChannel, f.scanDirectionFlag, f.edgeOfFlightLine);
  }

  lemma FlagsMeanBits(row: Row, f: PointFields, format: Format)
    requires Validated(f, format)
    requires row.returnNumber == f.returnNumber && row.numberOfReturns == f.numberOfReturns && row.scanChannel == f.scanChannel
    requires row.synthetic == (f.synthetic == 1) && row.keyPoint == (2 * f.keyPoint == 2)
    requires row.withheld == (4 * f.withheld == 4) && row.overlap == (8 * f.overlap == 8)
    requires row.scanDirectionFlag == (f.scanDirectionFlag == 1) && row.edgeOfFlightLine == (f.edgeOfFlightLine == 1)
    ensures FlagsMatch(row, f)
  {
  }

  /** Integers, words and extra bytes come back unchanged; format 6 has no colour. */
  ghost predicate ValuesMatch(row: Row, f: PointFields, format: Format) {
    && row.intensity == f.intensity && row.userData == f.userData && row.pointSourceId == f.pointSourceId
    && row.gpsTime == f.gpsTime && row.extraBytes == f.extraBytes
    && (if format.hasColor then row.red == f.red && row.green == f.green && row.blue == f.blue
        else row.red == 0 && row.green == 0 && row.blue == 0)
  }

  ghost predicate Near(a: real, b: real, step: real) {
    -step <= a - b <= step
  }

  /** Reals come back within half a step. */
  ghost predicate RealsMatch(row: Row, f: PointFields, t: Transform) {
    && Near(row.x, f.x, t.x.scale * 0.5) && Near(row.y, f.y, t.y.scale * 0.5) && Near(row.z, f.z, t.z.scale * 0.5)
    && Near(row.scanAngle, f.scanAngle, 0.003)
  }

  lemma ValuesRoundTrip(f: PointFields, t: Transform, format: Format)
    requires t.Valid() && Quantizes(f, t) && Validated(f, format)
    ensures ValuesMatch(DecodeRow(RecordBytes(f, t, format), t, format), f, format)
  {
    hide I32Le, ToLe, U16Le, I16Le, BitOr, BitAnd, Shr, QuantizeAxis, RecordBytes, FromLe, ReturnByte, FlagByte,
      ScanAngleToLasScaled, ColorBytes, Direct, ScanAngleValid;
    var b := RecordBytes(f, t, format);
    RecordSlices(f, t, format);
    U16RoundTrip(f.intensity);
    U16RoundTrip(f.pointSourceId);
    Widths();
    LeRoundTrip(f.gpsTime, 8);
    if format.hasColor {
      ColorSlices(f, format, b);
      U16RoundTrip(f.red);
      U16RoundTrip(f.green);
      U16RoundTrip(f.blue);
    }
  }

  lemma RealsRoundTrip(f: PointFields, t: Transform, format: Format)
    requires t.Valid() && Quantizes(f, t) && Validated(f, format)
    ensures RealsMatch(DecodeRow(RecordBytes(f, t, format), t, format), f, t)
  {
    hide I32Le, ToLe, U16Le, I16Le, BitOr, BitAnd, Shr, QuantizeAxis, RecordBytes, FromLe, ReturnByte, FlagByte,
      ScanAngleToLasScaled, ColorBytes, Direct, ScanAngleValid;
    RecordSlices(f, t, format);
    Widths();
    I32RoundTrip(QuantizeAxis(f.x, t.x).value);
    I32RoundTrip(QuantizeAxis(f.y, t.y).value);
    I32RoundTrip(QuantizeAxis(f.z, t.z).value);
    AxisRoundTrip(f.x, t.x);
    AxisRoundTrip(f.y, t.y);
    AxisRoundTrip(f.z, t.z);
    I16RoundTrip(ScanAngleToLasScaled(f.scanAngle));
    ScanAngleRoundTrip(f.scanAngle);
  }

  /**
   A validated point encoded and decoded again keeps every integer, flag, word and extra byte, its coordinates to half
   a scale step and its scan angle to 0.003 degrees. The classification survives exactly when it is not 12.
   */
  lemma PointRoundTrip(f: PointFields, t: Transform, format: Format)
    requires t.Valid() && Quantizes(f, t) && Validated(f, format)
    ensures var row := DecodeRow(RecordBytes(f, t, format), t, format);
      && FlagsMatch(row, f) && ValuesMatch(row, f, format) && RealsMatch(row, f, t)
      && (row.classification == f.classification <==> f.classification != OVERLAP_CLASSIFICATION_CODE)
      && (f.classification == OVERLAP_CLASSIFICATION_CODE ==> row.classification == 1)
  {
    hide RecordBytes, FlagsMatch, ValuesMatch, RealsMatch, BitAnd, Shr, Direct, FromLe;
    RecordSlices(f, t, format);
    ValuesRoundTrip(f, t, format);
    RealsRoundTrip(f, t, format);
    var b := RecordBytes(f, t, format);
    ReturnsRoundTrip(f, format, b[14]);
    FlagsRoundTrip(f, format, b[15]);
    assert FlagsMatch(DecodeRow(b, t, format), f) by {
      FlagsMeanBits(DecodeRow(b, t, format), f, format);
    }
  }
}
