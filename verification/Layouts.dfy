/** What is stored at which byte: entries, point records and spilled records, in plain numbers. */
module Layouts {
  import opened Core
  import opened Voxel
  import opened Codec
  import opened Words
  import opened PointRecord
  import Spill

  // Hierarchy entries -------------------------------------------------------

  /** The 32 bytes hold an entry the format allows. */
  ghost predicate EntryShape(b: seq<byte>)
    requires |b| == 32
  {
    var level, x, y, z, size, count := Int32(b, 0), Int32(b, 4), Int32(b, 8), Int32(b, 12), Int32(b, 24), Int32(b, 28);
    && level >= 0 && x >= 0 && y >= 0 && z >= 0
    && (level < 31 ==> x < Pow2(level) && y < Pow2(level) && z < Pow2(level))
    && count >= -1
    && (count == 0 ==> Word64(b, 16) == 0 && size == 0)
    && (count != 0 ==> size > 0)
  }

  /** Exactly which bytes are an entry, and which: four 32-bit key fields, a 64-bit offset, 32-bit size and count. */
  lemma EntryLayout(b: seq<byte>)
    ensures EntryFromLe(b).Ok? <==> |b| == 32 && EntryShape(b)
    ensures EntryFromLe(b).Ok? ==> var e := EntryFromLe(b).value;
      && e.key.level == Int32(b, 0) && e.key.x == Int32(b, 4) && e.key.y == Int32(b, 8) && e.key.z == Int32(b, 12)
      && e.offset == Word64(b, 16) && e.byteSize == Int32(b, 24) && e.pointCount == Int32(b, 28)
  {
    hide Int32, Word64, I32At, U64At;
    if |b| == 32 {
      ReadsWord32(b, 0);
      ReadsWord32(b, 4);
      ReadsWord32(b, 8);
      ReadsWord32(b, 12);
      ReadsWord64(b, 16);
      ReadsWord32(b, 24);
      ReadsWord32(b, 28);
    }
  }

  // Rounding ----------------------------------------------------------------

  /** The integer next to a real, the one further from zero when two are as near. */
  ghost predicate Nearest(n: int, v: real) {
    && v - 0.5 <= n as real <= v + 0.5
    && (n as real == v + 0.5 ==> v >= 0.0) && (n as real == v - 0.5 ==> v <= 0.0)
  }

  lemma RoundIsNearest(v: real, n: int)
    ensures Round(v) == n <==> Nearest(n, v)
  {
  }

  /** A coordinate is stored as the nearest step of its axis, and refused exactly when that is not a 32-bit integer. */
  lemma QuantizeExactly(value: real, axis: Axis, n: int)
    requires axis.Valid()
    ensures QuantizeAxis(value, axis).Ok? && QuantizeAxis(value, axis).value == n <==>
      -2147483648 <= n <= 2147483647 && Nearest(n, (value - axis.offset) / axis.scale)
  {
    hide Round;
    RoundIsNearest((value - axis.offset) / axis.scale, n);
  }

  // Scan angles -------------------------------------------------------------

  /** The angles a record can hold. */
  lemma ScanAngleRange(angle: real)
    ensures ScanAngleValid(angle) <==> -196.608 <= angle <= 196.602
  {
  }

  lemma ScanAngleNearest(angle: real)
    requires -196.608 <= angle <= 196.602
    ensures Nearest(ScanAngleToLasScaled(angle), angle / 0.006)
    ensures -0.003 <= ScanAngleToLasScaled(angle) as real * 0.006 - angle <= 0.003
  {
    hide Round;
    RoundIsNearest(angle / 0.006, Round(angle / 0.006));
  }

  // Point records -----------------------------------------------------------

  /** What a point must satisfy to be written, in numbers. */
  ghost predicate FieldsFit(f: PointFields, format: Format) {
    && f.returnNumber <= 15 && f.numberOfReturns <= 15
    && f.synthetic <= 1 && f.keyPoint <= 1 && f.withheld <= 1 && f.overlap <= 1
    && f.scanChannel <= 3 && f.scanDirectionFlag <= 1 && f.edgeOfFlightLine <= 1
    && -196.608 <= f.scanAngle <= 196.602 && |f.extraBytes| == format.extraLen
  }

  lemma ValidatedExactly(f: PointFields, format: Format)
    ensures Validated(f, format) <==> FieldsFit(f, format)
  {
    ScanAngleRange(f.scanAngle);
  }

  /** The fields of a point in the bytes of its record. */
  ghost predicate RecordHolds(b: seq<byte>, f: PointFields, t: Transform, format: Format)
    requires t.Valid()
  {
    && |b| == (if format.hasColor then 36 else 30) + |f.extraBytes|
    && Nearest(Int32(b, 0), (f.x - t.x.offset) / t.x.scale)
    && Nearest(Int32(b, 4), (f.y - t.y.offset) / t.y.scale)
    && Nearest(Int32(b, 8), (f.z - t.z.offset) / t.z.scale)
    && Word16(b, 12) == f.intensity
    && b[14] as int == f.returnNumber as int + 16 * f.numberOfReturns as int
    && b[15] as int == f.synthetic as int + 2 * f.keyPoint as int + 4 * f.withheld as int + 8 * f.overlap as int
      + 16 * f.scanChannel as int + 64 * f.scanDirectionFlag as int + 128 * f.edgeOfFlightLine as int
    && b[16] == f.classification && b[17] == f.userData
    && Nearest(Int16(b, 18), f.scanAngle / 0.006)
    && Word16(b, 20) == f.pointSourceId && Word64(b, 22) == f.gpsTime
    && (format.hasColor ==> Word16(b, 30) == f.red && Word16(b, 32) == f.green && Word16(b, 34) == f.blue)
    && b[if format.hasColor then 36 else 30..] == f.extraBytes
  }

  lemma AngleWord(b: seq<byte>, v: int16)
    requires |b| >= 20 && b[18..20] == I16Le(v)
    ensures Int16(b, 18) == v
  {
    WroteWord16(b, 18, if v < 0 then v + 0x1_0000 else v);
  }

  lemma ColorWords(b: seq<byte>, f: PointFields, format: Format)
    requires |b| >= 36 && format.hasColor && b[30..36] == ColorBytes(f, format)
    ensures Word16(b, 30) == f.red && Word16(b, 32) == f.green && Word16(b, 34) == f.blue
  {
    hide Word16;
    ColorSlices(f, format, b);
    WroteWord16(b, 30, f.red);
    WroteWord16(b, 32, f.green);
    WroteWord16(b, 34, f.blue);
  }

  lemma PositionWords(b: seq<byte>, f: PointFields, t: Transform)
    requires t.Valid() && Quantizes(f, t) && |b| >= 30
    requires b[0..4] == I32Le(QuantizeAxis(f.x, t.x).value) && b[4..8] == I32Le(QuantizeAxis(f.y, t.y).value)
    requires b[8..12] == I32Le(QuantizeAxis(f.z, t.z).value)
    ensures Nearest(Int32(b, 0), (f.x - t.x.offset) / t.x.scale)
    ensures Nearest(Int32(b, 4), (f.y - t.y.offset) / t.y.scale)
    ensures Nearest(Int32(b, 8), (f.z - t.z.offset) / t.z.scale)
  {
    hide QuantizeAxis, I32Le, Int32, Nearest;
    var x, y, z := QuantizeAxis(f.x, t.x).value, QuantizeAxis(f.y, t.y).value, QuantizeAxis(f.z, t.z).value;
    WroteInt32(b, 0, x);
    WroteInt32(b, 4, y);
    WroteInt32(b, 8, z);
    QuantizeExactly(f.x, t.x, x);
    QuantizeExactly(f.y, t.y, y);
    QuantizeExactly(f.z, t.z, z);
  }

  lemma PackedAt(b: seq<byte>, f: PointFields, format: Format)
    requires |b| >= 30 && Validated(f, format) && b[14] == ByteOf(ReturnByte(f)) && b[15] == ByteOf(FlagByte(f))
    ensures b[14] as int == f.returnNumber as int + 16 * f.numberOfReturns as int
    ensures b[15] as int == f.synthetic as int + 2 * f.keyPoint as int + 4 * f.withheld as int + 8 * f.overlap as int
      + 16 * f.scanChannel as int + 64 * f.scanDirectionFlag as int + 128 * f.edgeOfFlightLine as int
  {
    hide ReturnByte, FlagByte, ScanAngleValid;
    PackedBytes(f, format);
  }

  /** Every field of a written point is at its byte. */
  lemma RecordLayout(f: PointFields, t: Transform, format: Format)
    requires t.Valid() && Quantizes(f, t) && FieldsFit(f, format)
    ensures RecordHolds(RecordBytes(f, t, format), f, t, format)
  {
    hide QuantizeAxis, I32Le, I16Le, ToLe, Int32, Int16, Word16, Word64, Nearest, ReturnByte, FlagByte, ScanAngleToLasScaled, ColorBytes,
      RecordBytes, ScanAngleValid, ByteOf;
    ValidatedExactly(f, format);
    var b := RecordBytes(f, t, format);
    RecordSlices(f, t, format);
    PositionWords(b, f, t);
    PackedAt(b, f, format);
    WroteWord16(b, 12, f.intensity);
    AngleWord(b, ScanAngleToLasScaled(f.scanAngle));
    ScanAngleNearest(f.scanAngle);
    WroteWord16(b, 20, f.pointSourceId);
    WroteWord64(b, 22, f.gpsTime);
    if format.hasColor {
      ColorWords(b, f, format);
    }
  }

  /** The stored scan angle is within half a step of 0.006 degrees. */
  lemma StoredScanAngle(f: PointFields, t: Transform, format: Format)
    requires t.Valid() && Quantizes(f, t) && FieldsFit(f, format)
    ensures |RecordBytes(f, t, format)| >= 30
    ensures -0.003 <= Int16(RecordBytes(f, t, format), 18) as real * 0.006 - f.scanAngle <= 0.003
  {
    hide RecordBytes, Int16, ScanAngleToLasScaled, I16Le, QuantizeAxis;
    RecordSlices(f, t, format);
    AngleWord(RecordBytes(f, t, format), ScanAngleToLasScaled(f.scanAngle));
    ScanAngleNearest(f.scanAngle);
  }

  /** The row a record means, byte by byte. */
  ghost predicate RowMeans(row: Row, b: seq<byte>, t: Transform, format: Format)
    requires |b| == format.Len()
  {
    PositionMeans(row, b, t) && FlagsMean(row, b) && ValuesMean(row, b, format)
  }

  ghost predicate PositionMeans(row: Row, b: seq<byte>, t: Transform)
    requires |b| >= 30
  {
    && row.x == t.x.scale * Int32(b, 0) as real + t.x.offset
    && row.y == t.y.scale * Int32(b, 4) as real + t.y.offset
    && row.z == t.z.scale * Int32(b, 8) as real + t.z.offset
    && row.scanAngle == Int16(b, 18) as real * 0.006
  }

  ghost predicate FlagsMean(row: Row, b: seq<byte>)
    requires |b| >= 30
  {
    && row.returnNumber == b[14] as int % 16 && row.numberOfReturns == b[14] as int / 16
    && (row.synthetic <==> b[15] as int % 2 == 1) && (row.keyPoint <==> b[15] as int / 2 % 2 == 1)
    && (row.withheld <==> b[15] as int / 4 % 2 == 1) && (row.overlap <==> b[15] as int / 8 % 2 == 1)
    && row.scanChannel == b[15] as int / 16 % 4
    && (row.scanDirectionFlag <==> b[15] as int / 64 % 2 == 1) && (row.edgeOfFlightLine <==> b[15] as int / 128 == 1)
  }

  ghost predicate ValuesMean(row: Row, b: seq<byte>, format: Format)
    requires |b| == format.Len()
  {
    && row.intensity == Word16(b, 12)
    && row.classification == (if b[16] == 12 then 1 else b[16]) && row.userData == b[17]
    && row.pointSourceId == Word16(b, 20) && row.gpsTime == Word64(b, 22)
    && (format.hasColor ==> row.red == Word16(b, 30) && row.green == Word16(b, 32) && row.blue == Word16(b, 34))
    && (!format.hasColor ==> row.red == row.green == row.blue == 0)
    && row.extraBytes == b[if format.hasColor then 36 else 30..]
  }

  lemma MaskedBits(a: byte)
    ensures BitAnd(a, 15) == a % 16 && BitAnd(Shr(a, 4), 15) == a / 16
    ensures (BitAnd(a, 1) == 1 <==> a % 2 == 1) && (BitAnd(a, 2) == 2 <==> a / 2 % 2 == 1)
    ensures (BitAnd(a, 4) == 4 <==> a / 4 % 2 == 1) && (BitAnd(a, 8) == 8 <==> a / 8 % 2 == 1)
    ensures BitAnd(Shr(a, 4), 3) == a / 16 % 4 && (BitAnd(Shr(a, 6), 1) == 1 <==> a / 64 % 2 == 1) && Shr(a, 7) == a / 128
  {
    hide BitAnd, Shr;
    And15(a);
    ShrSmall(a);
    And15(a / 16);
    And1(a);
    BitMasks(a);
    And3(a / 16);
    And1(a / 64);
  }

  lemma PositionLayout(b: seq<byte>, t: Transform, format: Format)
    requires |b| == format.Len()
    ensures PositionMeans(DecodeRow(b, t, format), b, t)
  {
    hide BitAnd, Shr, Int32, U16At, I32At, U64At;
    ReadsWord32(b, 0);
    ReadsWord32(b, 4);
    ReadsWord32(b, 8);
    ReadsWord16(b, 18);
  }

  lemma FlagsLayout(b: seq<byte>, t: Transform, format: Format)
    requires |b| == format.Len()
    ensures FlagsMean(DecodeRow(b, t, format), b)
  {
    hide BitAnd, Shr, U16At, I32At, U64At, I16At, Direct;
    MaskedBits(b[14]);
    MaskedBits(b[15]);
  }

  lemma ValuesLayout(b: seq<byte>, t: Transform, format: Format)
    requires |b| == format.Len()
    ensures ValuesMean(DecodeRow(b, t, format), b, format)
  {
    hide BitAnd, Shr, Word16, Word64, U16At, I32At, U64At, I16At, Direct;
    ReadsWord16(b, 12);
    ReadsWord16(b, 20);
    ReadsWord64(b, 22);
    if format.hasColor {
      ReadsWord16(b, 30);
      ReadsWord16(b, 32);
      ReadsWord16(b, 34);
    }
  }

  /** Every record, whoever wrote it, decodes to what its bytes say. */
  lemma RowLayout(b: seq<byte>, t: Transform, format: Format)
    requires |b| == format.Len()
    ensures RowMeans(DecodeRow(b, t, format), b, t, format)
  {
    hide DecodeRow, PositionMeans, FlagsMean, ValuesMean;
    PositionLayout(b, t, format);
    FlagsLayout(b, t, format);
    ValuesLayout(b, t, format);
  }

  // Spilled records ---------------------------------------------------------

  /** The optional fields of a spilled record follow its 43 bytes in this order. */
  ghost predicate OptionalMeans(r: Spill.Record, b: seq<byte>, layout: Spill.Layout)
    requires |b| == layout.RecordWidth()
  {
    var c := 43 + (if layout.hasGps then 8 else 0);
    var n := c + (if layout.hasColor then 6 else 0);
    var w := n + (if layout.hasNir then 2 else 0);
    var e := w + (if layout.hasWaveform then 17 else 0);
    && |b| == e + layout.extraBytes as int
    && (if layout.hasGps then r.gpsTime == Word64(b, 43) else r.gpsTime == 0)
    && (if layout.hasColor then r.red == Word16(b, c) && r.green == Word16(b, c + 2) && r.blue == Word16(b, c + 4)
        else r.red == r.green == r.blue == 0)
    && (if layout.hasNir then r.nir == Word16(b, n) else r.nir == 0)
    && (if layout.hasWaveform then
          r.wavePacketDescriptorIndex == b[w] && r.byteOffsetToWaveformData == Word64(b, w + 1)
          && r.waveformPacketSize == Word32(b, w + 9) && r.returnPointWaveformLocation == Word32(b, w + 13)
        else
          r.wavePacketDescriptorIndex == 0 && r.byteOffsetToWaveformData == 0
          && r.waveformPacketSize == 0 && r.returnPointWaveformLocation == 0)
    && r.extraBytes == b[e..]
  }

  ghost predicate AlwaysMeans(r: Spill.Record, b: seq<byte>)
    requires |b| >= 43
  {
    && r.x == Word64(b, 0) && r.y == Word64(b, 8) && r.z == Word64(b, 16) && r.intensity == Word16(b, 24)
    && r.returnNumber == b[26] && r.numberOfReturns == b[27] && r.classification == b[28]
    && r.scanDirectionFlag == (b[29] != 0) && r.edgeOfFlightLine == (b[30] != 0)
    && r.scanAngle == Word32(b, 31) && r.userData == b[35] && r.pointSourceId == Word16(b, 36)
    && r.synthetic == (b[38] != 0) && r.keyPoint == (b[39] != 0) && r.withheld == (b[40] != 0) && r.overlap == (b[41] != 0)
    && r.scanChannel == b[42]
  }

  lemma AlwaysLayout(b: seq<byte>)
    requires |b| >= 43
    ensures AlwaysMeans(Spill.AlwaysDecoded(b), b)
  {
    hide Word16, Word64, Word32, U16At, U64At, FromLe;
    ReadsWord64(b, 0);
    ReadsWord64(b, 8);
    ReadsWord64(b, 16);
    ReadsWord16(b, 24);
    ReadsWord32(b, 31);
    ReadsWord16(b, 36);
  }

  lemma OptionalLayout(b: seq<byte>, layout: Spill.Layout)
    requires |b| == layout.RecordWidth()
    ensures OptionalMeans(Spill.Decoded(b, layout), b, layout)
  {
    hide Word16, Word64, Word32, U16At, U64At, FromLe, Spill.AlwaysDecoded;
    var c, n, w := layout.ColorOffset(), layout.NirOffset(), layout.WaveformOffset();
    if layout.hasGps {
      ReadsWord64(b, 43);
    }
    if layout.hasColor {
      ReadsWord16(b, c);
      ReadsWord16(b, c + 2);
      ReadsWord16(b, c + 4);
    }
    if layout.hasNir {
      ReadsWord16(b, n);
    }
    if layout.hasWaveform {
      ReadsWord64(b, w + 1);
      ReadsWord32(b, w + 9);
      ReadsWord32(b, w + 13);
    }
  }

  /** Every field of a spilled record is at its byte, for every layout; `SpillRoundTrip` says the same of writing. */
  lemma SpillLayout(b: seq<byte>, layout: Spill.Layout)
    requires |b| == layout.RecordWidth()
    ensures |b| >= 43 && AlwaysMeans(Spill.Decoded(b, layout), b) && OptionalMeans(Spill.Decoded(b, layout), b, layout)
  {
    hide Word16, Word64, Word32, Spill.AlwaysDecoded, OptionalMeans;
    AlwaysLayout(b);
    OptionalLayout(b, layout);
  }

  /** A stored flag is one byte, 0 or 1. */
  lemma SpillFlags(r: Spill.Record, layout: Spill.Layout)
    ensures var b := Spill.RecordBytes(r, layout);
      && |b| >= 43
      && b[29] == (if r.scanDirectionFlag then 1 else 0) && b[30] == (if r.edgeOfFlightLine then 1 else 0)
      && b[38] == (if r.synthetic then 1 else 0) && b[39] == (if r.keyPoint then 1 else 0)
      && b[40] == (if r.withheld then 1 else 0) && b[41] == (if r.overlap then 1 else 0)
  {
    hide Spill.RecordBytes, U16Le;
    var b := Spill.RecordBytes(r, layout);
    Spill.RecordParts(r, layout);
    var lead, marks := Spill.LeadBytes(r), Spill.MarkBytes(r);
    assert b[29] == b[24..31][5] == lead[5] && b[30] == b[24..31][6] == lead[6];
    assert b[38] == b[38..43][0] == marks[0] && b[39] == b[38..43][1] == marks[1];
    assert b[40] == b[38..43][2] == marks[2] && b[41] == b[38..43][3] == marks[3];
  }

  /** The records the spill store takes: finite numbers, an angle a record can hold, and fields that fit their bits. */
  lemma SpillAccepts(floats: Spill.Floats, layout: Spill.Layout, r: Spill.Record)
    ensures Spill.Acceptable(floats, layout, r) <==>
      && floats.f64(r.x).Some? && floats.f64(r.y).Some? && floats.f64(r.z).Some? && floats.f64(r.gpsTime).Some?
      && floats.f32(r.scanAngle).Some? && -196.608 <= floats.f32(r.scanAngle).value <= 196.602
      && r.returnNumber <= 15 && r.numberOfReturns <= 15 && r.scanChannel <= 3
      && |r.extraBytes| == layout.extraBytes as int
  {
    if floats.f32(r.scanAngle).Some? {
      ScanAngleRange(floats.f32(r.scanAngle).value);
    }
  }
}
