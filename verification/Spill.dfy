/** The spill store for streamed points (copc-writer/src/spill.rs, copc-core/src/streaming.rs). */
module Spill {
  import opened Core
  import opened Codec
  import opened Bounds
  import PointRecord

  /** One streamed point. Floats are kept as the words that are stored. */
  datatype Record = Record(
    x: uint64, y: uint64, z: uint64, intensity: uint16, returnNumber: byte, numberOfReturns: byte,
    classification: byte, scanDirectionFlag: bool, edgeOfFlightLine: bool, scanAngle: uint32,
    userData: byte, pointSourceId: uint16, synthetic: bool, keyPoint: bool, withheld: bool, overlap: bool,
    scanChannel: byte, gpsTime: uint64, red: uint16, green: uint16, blue: uint16, nir: uint16,
    wavePacketDescriptorIndex: byte, byteOffsetToWaveformData: uint64, waveformPacketSize: uint32,
    returnPointWaveformLocation: uint32, extraBytes: seq<byte>)

  const ALWAYS_BYTES := 43

  /** Which optional fields a streaming pass stores. */
  datatype Layout = Layout(hasGps: bool, hasColor: bool, hasNir: bool, hasWaveform: bool, extraBytes: uint16) {
    function GpsOffset(): nat {
      ALWAYS_BYTES
    }

    function ColorOffset(): nat {
      GpsOffset() + (if hasGps then 8 else 0)
    }

    function NirOffset(): nat {
      ColorOffset() + (if hasColor then 6 else 0)
    }

    function WaveformOffset(): nat {
      NirOffset() + (if hasNir then 2 else 0)
    }

    function ExtraOffset(): nat {
      WaveformOffset() + (if hasWaveform then 17 else 0)
    }

    /** `record_width` */
    function RecordWidth(): (w: nat)
      ensures w > 0
    {
      ExtraOffset() + extraBytes
    }
  }

  // The stored bytes --------------------------------------------------------

  function BoolByte(b: bool): byte {
    if b then 1 else 0
  }

  function PositionBytes(r: Record): (bytes: seq<byte>)
    ensures |bytes| == 24
  {
    ToLe(r.x, 8) + ToLe(r.y, 8) + ToLe(r.z, 8)
  }

  function LeadBytes(r: Record): (bytes: seq<byte>)
    ensures |bytes| == 7
  {
    U16Le(r.intensity) + [r.returnNumber] + [r.numberOfReturns] + [r.classification]
    + [BoolByte(r.scanDirectionFlag)] + [BoolByte(r.edgeOfFlightLine)]
  }

  function AngleBytes(r: Record): (bytes: seq<byte>)
    ensures |bytes| == 7
  {
    ToLe(r.scanAngle, 4) + [r.userData] + U16Le(r.pointSourceId)
  }

  function MarkBytes(r: Record): (bytes: seq<byte>)
    ensures |bytes| == 5
  {
    [BoolByte(r.synthetic)] + [BoolByte(r.keyPoint)] + [BoolByte(r.withheld)] + [BoolByte(r.overlap)] + [r.scanChannel]
  }

  /** The fields every layout stores. */
  function AlwaysBytes(r: Record): (bytes: seq<byte>)
    ensures |bytes| == ALWAYS_BYTES
  {
    PositionBytes(r) + LeadBytes(r) + AngleBytes(r) + MarkBytes(r)
  }

  function GpsBytes(r: Record, layout: Layout): (bytes: seq<byte>)
    ensures |bytes| == layout.ColorOffset() - layout.GpsOffset()
  {
    if layout.hasGps then ToLe(r.gpsTime, 8) else []
  }

  function ColorBytes(r: Record, layout: Layout): (bytes: seq<byte>)
    ensures |bytes| == layout.NirOffset() - layout.ColorOffset()
  {
    if layout.hasColor then U16Le(r.red) + U16Le(r.green) + U16Le(r.blue) else []
  }

  function NirBytes(r: Record, layout: Layout): (bytes: seq<byte>)
    ensures |bytes| == layout.WaveformOffset() - layout.NirOffset()
  {
    if layout.hasNir then U16Le(r.nir) else []
  }

  function WaveformBytes(r: Record, layout: Layout): (bytes: seq<byte>)
    ensures |bytes| == layout.ExtraOffset() - layout.WaveformOffset()
  {
    if layout.hasWaveform then
      [r.wavePacketDescriptorIndex] + ToLe(r.byteOffsetToWaveformData, 8) + ToLe(r.waveformPacketSize, 4)
      + ToLe(r.returnPointWaveformLocation, 4)
    else []
  }

  function OptionalBytes(r: Record, layout: Layout): (bytes: seq<byte>)
    ensures |bytes| == layout.ExtraOffset() - ALWAYS_BYTES
  {
    GpsBytes(r, layout) + ColorBytes(r, layout) + NirBytes(r, layout) + WaveformBytes(r, layout)
  }

  function RecordBytes(r: Record, layout: Layout): (bytes: seq<byte>)
    ensures |bytes| == layout.ExtraOffset() + |r.extraBytes|
  {
    AlwaysBytes(r) + OptionalBytes(r, layout) + r.extraBytes
  }

  // Serializing -------------------------------------------------------------

  /** Appends a field at the cursor. */
  method Put(dst: array<byte>, offset: nat, bytes: seq<byte>) returns (next: nat)
    requires offset + |bytes| <= dst.Length
    modifies dst
    ensures next == offset + |bytes| && dst[..next] == old(dst[..offset]) + bytes
  {
    PutNext(dst, offset, bytes);
    next := offset + |bytes|;
  }

  method PutPosition(r: Record, dst: array<byte>) returns (offset: nat)
    requires dst.Length >= 24
    modifies dst
    ensures offset == 24 && dst[..offset] == PositionBytes(r)
  {
    hide ToLe;
    offset := Put(dst, 0, ToLe(r.x, 8));
    offset := Put(dst, offset, ToLe(r.y, 8));
    offset := Put(dst, offset, ToLe(r.z, 8));
  }

  method PutLead(r: Record, dst: array<byte>, start: nat) returns (offset: nat)
    requires start + 7 <= dst.Length
    modifies dst
    ensures offset == start + 7 && dst[..offset] == old(dst[..start]) + LeadBytes(r)
  {
    hide U16Le, BoolByte;
    offset := Put(dst, start, U16Le(r.intensity));
    offset := Put(dst, offset, [r.returnNumber]);
    offset := Put(dst, offset, [r.numberOfReturns]);
    offset := Put(dst, offset, [r.classification]);
    offset := Put(dst, offset, [BoolByte(r.scanDirectionFlag)]);
    offset := Put(dst, offset, [BoolByte(r.edgeOfFlightLine)]);
  }

  method PutAngle(r: Record, dst: array<byte>, start: nat) returns (offset: nat)
    requires start + 7 <= dst.Length
    modifies dst
    ensures offset == start + 7 && dst[..offset] == old(dst[..start]) + AngleBytes(r)
  {
    hide ToLe, U16Le;
    offset := Put(dst, start, ToLe(r.scanAngle, 4));
    offset := Put(dst, offset, [r.userData]);
    offset := Put(dst, offset, U16Le(r.pointSourceId));
  }

  method PutMarks(r: Record, dst: array<byte>, start: nat) returns (offset: nat)
    requires start + 5 <= dst.Length
    modifies dst
    ensures offset == start + 5 && dst[..offset] == old(dst[..start]) + MarkBytes(r)
  {
    hide BoolByte;
    offset := Put(dst, start, [BoolByte(r.synthetic)]);
    offset := Put(dst, offset, [BoolByte(r.keyPoint)]);
    offset := Put(dst, offset, [BoolByte(r.withheld)]);
    offset := Put(dst, offset, [BoolByte(r.overlap)]);
    offset := Put(dst, offset, [r.scanChannel]);
  }

  method PutGpsAndColor(r: Record, layout: Layout, dst: array<byte>, start: nat) returns (offset: nat)
    requires start == ALWAYS_BYTES && dst.Length >= layout.ExtraOffset()
    modifies dst
    ensures offset == layout.NirOffset()
    ensures dst[..offset] == old(dst[..start]) + GpsBytes(r, layout) + ColorBytes(r, layout)
  {
    hide ToLe, U16Le;
    offset := start;
    if layout.hasGps {
      offset := Put(dst, offset, ToLe(r.gpsTime, 8));
    }
    if layout.hasColor {
      offset := Put(dst, offset, U16Le(r.red));
      offset := Put(dst, offset, U16Le(r.green));
      offset := Put(dst, offset, U16Le(r.blue));
    }
  }

  method PutNirAndWaveform(r: Record, layout: Layout, dst: array<byte>, start: nat) returns (offset: nat)
    requires start == layout.NirOffset() && dst.Length >= layout.ExtraOffset()
    modifies dst
    ensures offset == layout.ExtraOffset()
    ensures dst[..offset] == old(dst[..start]) + NirBytes(r, layout) + WaveformBytes(r, layout)
  {
    hide ToLe, U16Le;
    offset := start;
    if layout.hasNir {
      offset := Put(dst, offset, U16Le(r.nir));
    }
    if layout.hasWaveform {
      offset := Put(dst, offset, [r.wavePacketDescriptorIndex]);
      offset := Put(dst, offset, ToLe(r.byteOffsetToWaveformData, 8));
      offset := Put(dst, offset, ToLe(r.waveformPacketSize, 4));
      offset := Put(dst, offset, ToLe(r.returnPointWaveformLocation, 4));
    }
  }

  method PutAlways(r: Record, dst: array<byte>) returns (offset: nat)
    requires dst.Length >= ALWAYS_BYTES
    modifies dst
    ensures offset == ALWAYS_BYTES && dst[..offset] == AlwaysBytes(r)
  {
    hide PositionBytes, LeadBytes, AngleBytes, MarkBytes;
    offset := PutPosition(r, dst);
    offset := PutLead(r, dst, offset);
    offset := PutAngle(r, dst, offset);
    offset := PutMarks(r, dst, offset);
  }

  /** `serialize_le` */
  method SerializeLe(r: Record, layout: Layout, dst: array<byte>) returns (res: Result<()>)
    modifies dst
    ensures res.Ok? <==> dst.Length == layout.RecordWidth() && |r.extraBytes| == layout.extraBytes
    ensures res.Ok? ==> dst[..] == RecordBytes(r, layout)
    ensures res.Err? ==> dst[..] == old(dst[..])
  {
    hide AlwaysBytes, GpsBytes, ColorBytes, NirBytes, WaveformBytes;
    if dst.Length != layout.RecordWidth() {
      return Err(InvalidInput);
    }
    if |r.extraBytes| != layout.extraBytes {
      return Err(InvalidInput);
    }
    var offset := PutAlways(r, dst);
    offset := PutGpsAndColor(r, layout, dst, offset);
    offset := PutNirAndWaveform(r, layout, dst, offset);
    assert dst[..offset] == AlwaysBytes(r) + OptionalBytes(r, layout);
    offset := Put(dst, offset, r.extraBytes);
    assert dst[..] == dst[..offset];
    return Ok(());
  }

  // Deserializing -----------------------------------------------------------

  function WordAt(src: seq<byte>, offset: nat, width: nat): (v: nat)
    requires offset + width <= |src|
    ensures v < Pow256(width)
  {
    FromLe(src[offset..offset + width])
  }

  function U32At(src: seq<byte>, offset: nat): uint32
    requires offset + 4 <= |src|
  {
    Widths();
    WordAt(src, offset, 4)
  }

  /** The fields every layout stores, with the others zero. */
  function AlwaysDecoded(src: seq<byte>): (r: Record)
    requires |src| >= 43
    ensures r.gpsTime == r.red == r.green == r.blue == r.nir == 0 && r.extraBytes == []
    ensures r.wavePacketDescriptorIndex == r.byteOffsetToWaveformData == r.waveformPacketSize == r.returnPointWaveformLocation == 0
  {
    Record(U64At(src, 0), U64At(src, 8), U64At(src, 16), U16At(src, 24), src[26], src[27],
      src[28], src[29] != 0, src[30] != 0, U32At(src, 31),
      src[35], U16At(src, 36), src[38] != 0, src[39] != 0, src[40] != 0, src[41] != 0,
      src[42], 0, 0, 0, 0, 0, 0, 0, 0, 0, [])
  }

  /** What the stored bytes of a record mean; fields the layout leaves out read as zero. */
  function Decoded(src: seq<byte>, layout: Layout): Record
    requires |src| == layout.RecordWidth()
  {
    var g, c, n, w, e := layout.GpsOffset(), layout.ColorOffset(), layout.NirOffset(), layout.WaveformOffset(), layout.ExtraOffset();
    AlwaysDecoded(src).(
      gpsTime := if layout.hasGps then U64At(src, g) else 0,
      red := if layout.hasColor then U16At(src, c) else 0, green := if layout.hasColor then U16At(src, c + 2) else 0,
      blue := if layout.hasColor then U16At(src, c + 4) else 0, nir := if layout.hasNir then U16At(src, n) else 0,
      wavePacketDescriptorIndex := if layout.hasWaveform then src[w] else 0,
      byteOffsetToWaveformData := if layout.hasWaveform then U64At(src, w + 1) else 0,
      waveformPacketSize := if layout.hasWaveform then U32At(src, w + 9) else 0,
      returnPointWaveformLocation := if layout.hasWaveform then U32At(src, w + 13) else 0, extraBytes := src[e..])
  }

  method TakeGpsAndColor(src: seq<byte>, layout: Layout, before: Record) returns (r: Record, offset: nat)
    requires |src| == layout.RecordWidth()
    ensures offset == layout.NirOffset()
    ensures var g, c := layout.GpsOffset(), layout.ColorOffset();
      r == before.(
        gpsTime := if layout.hasGps then U64At(src, g) else before.gpsTime,
        red := if layout.hasColor then U16At(src, c) else before.red,
        green := if layout.hasColor then U16At(src, c + 2) else before.green,
        blue := if layout.hasColor then U16At(src, c + 4) else before.blue)
  {
    hide U64At, U16At;
    r, offset := before, ALWAYS_BYTES;
    if layout.hasGps {
      r := r.(gpsTime := U64At(src, offset));
      offset := offset + 8;
    }
    if layout.hasColor {
      r := r.(red := U16At(src, offset), green := U16At(src, offset + 2), blue := U16At(src, offset + 4));
      offset := offset + 6;
    }
  }

  /** `deserialize_le_into`, as the record it leaves behind. */
  method DeserializeLe(src: seq<byte>, layout: Layout) returns (res: Result<Record>)
    ensures res.Ok? <==> |src| == layout.RecordWidth()
    ensures res.Ok? ==> res.value == Decoded(src, layout)
  {
    hide AlwaysDecoded, U64At, U16At, U32At;
    if |src| != layout.RecordWidth() {
      return Err(InvalidData);
    }
    var r, offset := TakeGpsAndColor(src, layout, AlwaysDecoded(src));
    if layout.hasNir {
      r := r.(nir := U16At(src, offset));
      offset := offset + 2;
    }
    if layout.hasWaveform {
      r := r.(wavePacketDescriptorIndex := src[offset], byteOffsetToWaveformData := U64At(src, offset + 1),
              waveformPacketSize := U32At(src, offset + 9), returnPointWaveformLocation := U32At(src, offset + 13));
      offset := offset + 17;
    }
    if layout.extraBytes > 0 {
      r := r.(extraBytes := src[offset..offset + layout.extraBytes]);
    }
    return Ok(r);
  }

  /** The record with the fields the layout does not store zeroed. */
  function Stored(r: Record, layout: Layout): Record {
    r.(gpsTime := if layout.hasGps then r.gpsTime else 0,
       red := if layout.hasColor then r.red else 0,
       green := if layout.hasColor then r.green else 0,
       blue := if layout.hasColor then r.blue else 0,
       nir := if layout.hasNir then r.nir else 0,
       wavePacketDescriptorIndex := if layout.hasWaveform then r.wavePacketDescriptorIndex else 0,
       byteOffsetToWaveformData := if layout.hasWaveform then r.byteOffsetToWaveformData else 0,
       waveformPacketSize := if layout.hasWaveform then r.waveformPacketSize else 0,
       returnPointWaveformLocation := if layout.hasWaveform then r.returnPointWaveformLocation else 0)
  }

  lemma WordRoundTrip(b: seq<byte>, at: nat, v: nat, width: nat)
    requires at + width <= |b| && b[at..at + width] == ToLe(v, width) && v < Pow256(width)
    ensures FromLe(b[at..at + width]) == v
  {
    LeRoundTrip(v, width);
  }

  lemma AlwaysParts(r: Record)
    ensures var b := AlwaysBytes(r);
      b[0..24] == PositionBytes(r) && b[24..31] == LeadBytes(r) && b[31..38] == AngleBytes(r) && b[38..43] == MarkBytes(r)
  {
    hide PositionBytes, LeadBytes, AngleBytes, MarkBytes;
  }

  lemma OptionalParts(r: Record, layout: Layout)
    ensures var b := OptionalBytes(r, layout);
      var c, n, w := layout.ColorOffset() - 43, layout.NirOffset() - 43, layout.WaveformOffset() - 43;
      b[0..c] == GpsBytes(r, layout) && b[c..n] == ColorBytes(r, layout) && b[n..w] == NirBytes(r, layout)
      && b[w..] == WaveformBytes(r, layout)
  {
    hide GpsBytes, ColorBytes, NirBytes, WaveformBytes;
    var g, c, n, w := GpsBytes(r, layout), ColorBytes(r, layout), NirBytes(r, layout), WaveformBytes(r, layout);
    assert OptionalBytes(r, layout) == g + c + n + w;
    FourParts(g, c, n, w);
  }

  lemma FourParts(g: seq<byte>, c: seq<byte>, n: seq<byte>, w: seq<byte>)
    ensures var b := g + c + n + w;
      && b[0..|g|] == g && b[|g|..|g| + |c|] == c && b[|g| + |c|..|g| + |c| + |n|] == n && b[|g| + |c| + |n|..] == w
  {
  }

  /** Where the parts of a record lie. */
  lemma RecordParts(r: Record, layout: Layout)
    ensures var b := RecordBytes(r, layout);
      && b[0..24] == PositionBytes(r) && b[24..31] == LeadBytes(r) && b[31..38] == AngleBytes(r) && b[38..43] == MarkBytes(r)
      && b[43..layout.ColorOffset()] == GpsBytes(r, layout)
      && b[layout.ColorOffset()..layout.NirOffset()] == ColorBytes(r, layout)
      && b[layout.NirOffset()..layout.WaveformOffset()] == NirBytes(r, layout)
      && b[layout.WaveformOffset()..layout.ExtraOffset()] == WaveformBytes(r, layout)
      && b[layout.ExtraOffset()..] == r.extraBytes
  {
    hide AlwaysBytes, OptionalBytes, PositionBytes, LeadBytes, AngleBytes, MarkBytes, GpsBytes, ColorBytes, NirBytes, WaveformBytes;
    var b, n := RecordBytes(r, layout), layout.ExtraOffset();
    AlwaysParts(r);
    OptionalParts(r, layout);
    assert b[0..43] == AlwaysBytes(r) && b[43..n] == OptionalBytes(r, layout);
    SliceOfSlice(b, 0, 43, 0, 24);
    SliceOfSlice(b, 0, 43, 24, 31);
    SliceOfSlice(b, 0, 43, 31, 38);
    SliceOfSlice(b, 0, 43, 38, 43);
    SliceOfSlice(b, 43, n, 0, layout.ColorOffset() - 43);
    SliceOfSlice(b, 43, n, layout.ColorOffset() - 43, layout.NirOffset() - 43);
    SliceOfSlice(b, 43, n, layout.NirOffset() - 43, layout.WaveformOffset() - 43);
    SliceOfSlice(b, 43, n, layout.WaveformOffset() - 43, n - 43);
  }

  lemma PositionReads(r: Record, b: seq<byte>)
    requires |b| >= 43 && b[0..24] == PositionBytes(r)
    ensures U64At(b, 0) == r.x && U64At(b, 8) == r.y && U64At(b, 16) == r.z
  {
    hide ToLe, FromLe;
    Widths();
    var p := PositionBytes(r);
    assert p[0..8] == ToLe(r.x, 8) && p[8..16] == ToLe(r.y, 8) && p[16..24] == ToLe(r.z, 8);
    SliceOfSlice(b, 0, 24, 0, 8);
    SliceOfSlice(b, 0, 24, 8, 16);
    SliceOfSlice(b, 0, 24, 16, 24);
    WordRoundTrip(b, 0, r.x, 8);
    WordRoundTrip(b, 8, r.y, 8);
    WordRoundTrip(b, 16, r.z, 8);
  }

  lemma LeadReads(r: Record, b: seq<byte>)
    requires |b| >= 43 && b[24..31] == LeadBytes(r)
    ensures U16At(b, 24) == r.intensity && b[26] == r.returnNumber && b[27] == r.numberOfReturns && b[28] == r.classification
    ensures (b[29] != 0) == r.scanDirectionFlag && (b[30] != 0) == r.edgeOfFlightLine
  {
    hide ToLe, FromLe;
    var p := LeadBytes(r);
    assert p[0..2] == U16Le(r.intensity);
    SliceOfSlice(b, 24, 31, 0, 2);
    U16RoundTrip(r.intensity);
    assert forall i :: 0 <= i < 7 ==> b[24 + i] == b[24..31][i] == p[i];
    assert b[26] == p[2] && b[27] == p[3] && b[28] == p[4] && b[29] == p[5] && b[30] == p[6];
  }

  lemma AngleReads(r: Record, b: seq<byte>)
    requires |b| >= 43 && b[31..38] == AngleBytes(r)
    ensures U32At(b, 31) == r.scanAngle && b[35] == r.userData && U16At(b, 36) == r.pointSourceId
  {
    hide ToLe, FromLe;
    Widths();
    var p := AngleBytes(r);
    assert p[0..4] == ToLe(r.scanAngle, 4) && p[5..7] == U16Le(r.pointSourceId);
    SliceOfSlice(b, 31, 38, 0, 4);
    SliceOfSlice(b, 31, 38, 5, 7);
    WordRoundTrip(b, 31, r.scanAngle, 4);
    U16RoundTrip(r.pointSourceId);
    assert b[35] == b[31..38][4] == p[4];
  }

  lemma MarkReads(r: Record, b: seq<byte>)
    requires |b| >= 43 && b[38..43] == MarkBytes(r)
    ensures (b[38] != 0) == r.synthetic && (b[39] != 0) == r.keyPoint && (b[40] != 0) == r.withheld && (b[41] != 0) == r.overlap
    ensures b[42] == r.scanChannel
  {
    var p := MarkBytes(r);
    assert b[38] == b[38..43][0] == p[0] && b[39] == b[38..43][1] == p[1] && b[40] == b[38..43][2] == p[2];
    assert b[41] == b[38..43][3] == p[3] && b[42] == b[38..43][4] == p[4];
  }

  lemma ColorReads(r: Record, b: seq<byte>, at: nat)
    requires at + 6 <= |b| && b[at..at + 6] == U16Le(r.red) + U16Le(r.green) + U16Le(r.blue)
    ensures U16At(b, at) == r.red && U16At(b, at + 2) == r.green && U16At(b, at + 4) == r.blue
  {
    hide FromLe, U16Le;
    var p := U16Le(r.red) + U16Le(r.green) + U16Le(r.blue);
    assert p[0..2] == U16Le(r.red) && p[2..4] == U16Le(r.green) && p[4..6] == U16Le(r.blue);
    SliceOfSlice(b, at, at + 6, 0, 2);
    SliceOfSlice(b, at, at + 6, 2, 4);
    SliceOfSlice(b, at, at + 6, 4, 6);
    U16RoundTrip(r.red);
    U16RoundTrip(r.green);
    U16RoundTrip(r.blue);
  }

  lemma WaveformReads(r: Record, b: seq<byte>, at: nat)
    requires at + 17 <= |b|
    requires b[at..at + 17] == [r.wavePacketDescriptorIndex] + ToLe(r.byteOffsetToWaveformData, 8) + ToLe(r.waveformPacketSize, 4)
                               + ToLe(r.returnPointWaveformLocation, 4)
    ensures b[at] == r.wavePacketDescriptorIndex && U64At(b, at + 1) == r.byteOffsetToWaveformData
    ensures U32At(b, at + 9) == r.waveformPacketSize && U32At(b, at + 13) == r.returnPointWaveformLocation
  {
    hide FromLe, ToLe;
    Widths();
    var p := b[at..at + 17];
    assert b[at] == p[0];
    assert p[1..9] == ToLe(r.byteOffsetToWaveformData, 8);
    assert p[9..13] == ToLe(r.waveformPacketSize, 4) && p[13..17] == ToLe(r.returnPointWaveformLocation, 4);
    SliceOfSlice(b, at, at + 17, 1, 9);
    SliceOfSlice(b, at, at + 17, 9, 13);
    SliceOfSlice(b, at, at + 17, 13, 17);
    WordRoundTrip(b, at + 1, r.byteOffsetToWaveformData, 8);
    WordRoundTrip(b, at + 9, r.waveformPacketSize, 4);
    WordRoundTrip(b, at + 13, r.returnPointWaveformLocation, 4);
  }

  /** The optional fields that are stored read back. */
  ghost predicate OptionalReads(r: Record, layout: Layout, b: seq<byte>)
    requires |b| == layout.RecordWidth()
  {
    && (layout.hasGps ==> U64At(b, layout.GpsOffset()) == r.gpsTime)
    && (layout.hasColor ==> U16At(b, layout.ColorOffset()) == r.red && U16At(b, layout.ColorOffset() + 2) == r.green
                            && U16At(b, layout.ColorOffset() + 4) == r.blue)
    && (layout.hasNir ==> U16At(b, layout.NirOffset()) == r.nir)
    && (layout.hasWaveform ==> b[layout.WaveformOffset()] == r.wavePacketDescriptorIndex
                               && U64At(b, layout.WaveformOffset() + 1) == r.byteOffsetToWaveformData
                               && U32At(b, layout.WaveformOffset() + 9) == r.waveformPacketSize
                               && U32At(b, layout.WaveformOffset() + 13) == r.returnPointWaveformLocation)
  }

  lemma OptionalsRead(r: Record, layout: Layout)
    requires |r.extraBytes| == layout.extraBytes
    ensures OptionalReads(r, layout, RecordBytes(r, layout))
  {
    hide PositionBytes, LeadBytes, AngleBytes, MarkBytes, RecordBytes, FromLe, ToLe, U16Le, U32At;
    var b := RecordBytes(r, layout);
    RecordParts(r, layout);
    Widths();
    if layout.hasGps {
      WordRoundTrip(b, layout.GpsOffset(), r.gpsTime, 8);
    }
    if layout.hasColor {
      ColorReads(r, b, layout.ColorOffset());
    }
    if layout.hasNir {
      U16RoundTrip(r.nir);
    }
    if layout.hasWaveform {
      WaveformReads(r, b, layout.WaveformOffset());
    }
  }

  /** A stored record reads back unchanged, with the fields its layout leaves out zeroed. */
  lemma SpillRoundTrip(r: Record, layout: Layout)
    requires |r.extraBytes| == layout.extraBytes
    ensures Decoded(RecordBytes(r, layout), layout) == Stored(r, layout)
  {
    hide PositionBytes, LeadBytes, AngleBytes, MarkBytes, GpsBytes, ColorBytes, NirBytes, WaveformBytes, RecordBytes, U16At, U32At, U64At;
    var b := RecordBytes(r, layout);
    RecordParts(r, layout);
    PositionReads(r, b);
    LeadReads(r, b);
    AngleReads(r, b);
    MarkReads(r, b);
    OptionalsRead(r, layout);
  }

  // Intake ------------------------------------------------------------------

  /** What the stored float words stand for; words that are not finite have no value. */
  datatype Floats = Floats(f64: uint64 -> Option<real>, f32: uint32 -> Option<real>)

  /** `PointStats`; the extremes are absent until a point is recorded. */
  datatype PointStats = PointStats(gpsMin: Option<real>, gpsMax: Option<real>, returnCounts: seq<nat>)

  const NO_STATS := PointStats(None, None, [0, 0, 0, 0, 0, 0, 0, 0, 0, 0, 0, 0, 0, 0, 0])

  /** `PointStats::record` */
  function RecordStats(s: PointStats, floats: Floats, r: Record): Result<PointStats>
    requires |s.returnCounts| == 15
  {
    match floats.f64(r.gpsTime)
    case None => Err(InvalidInput)
    case Some(t) =>
      Ok(PointStats(
        Some(match s.gpsMin case None => t case Some(m) => RealMin(m, t)),
        Some(match s.gpsMax case None => t case Some(m) => RealMax(m, t)),
        if 1 <= r.returnNumber <= 15 then s.returnCounts[r.returnNumber - 1 := s.returnCounts[r.returnNumber - 1] + 1]
        else s.returnCounts))
  }

  predicate HasPosition(floats: Floats, r: Record) {
    floats.f64(r.x).Some? && floats.f64(r.y).Some? && floats.f64(r.z).Some?
  }

  function Position(floats: Floats, r: Record): Vec3
    requires HasPosition(floats, r)
  {
    Vec3(floats.f64(r.x).value, floats.f64(r.y).value, floats.f64(r.z).value)
  }

  /** `validate_spill_record` */
  predicate SpillRecordValid(floats: Floats, r: Record) {
    && HasPosition(floats, r)
    && floats.f32(r.scanAngle).Some? && PointRecord.ScanAngleValid(floats.f32(r.scanAngle).value)
    && r.returnNumber <= 15 && r.numberOfReturns <= 15 && r.scanChannel <= 3
  }

  /** A record the writer takes in. */
  predicate Acceptable(floats: Floats, layout: Layout, r: Record) {
    SpillRecordValid(floats, r) && floats.f64(r.gpsTime).Some? && |r.extraBytes| == layout.extraBytes
  }

  /** `Bounds::extend` */
  function Extend(b: Box, p: Vec3): Box {
    Box(Vec3(RealMin(b.min.x, p.x), RealMin(b.min.y, p.y), RealMin(b.min.z, p.z)),
        Vec3(RealMax(b.max.x, p.x), RealMax(b.max.y, p.y), RealMax(b.max.z, p.z)))
  }

  // What a run of pushes amounts to -----------------------------------------

  ghost predicate AllAcceptable(floats: Floats, layout: Layout, records: seq<Record>) {
    forall i :: 0 <= i < |records| ==> Acceptable(floats, layout, records[i])
  }

  /** The file after the records: their bytes one after another. */
  ghost function Images(records: seq<Record>, layout: Layout): seq<byte> {
    if records == [] then [] else Images(records[..|records| - 1], layout) + RecordBytes(records[|records| - 1], layout)
  }

  ghost function BoundsOf(floats: Floats, records: seq<Record>): (b: Option<Box>)
    requires forall i :: 0 <= i < |records| ==> HasPosition(floats, records[i])
  {
    if records == [] then None
    else
      var n := |records| - 1;
      var p := Position(floats, records[n]);
      match BoundsOf(floats, records[..n])
      case None => Some(Box(p, p))
      case Some(b) => Some(Extend(b, p))
  }

  ghost function CountReturns(records: seq<Record>, number: nat): nat {
    if records == [] then 0
    else CountReturns(records[..|records| - 1], number) + (if records[|records| - 1].returnNumber == number then 1 else 0)
  }

  /** The running statistics describe exactly these records. */
  ghost predicate StatsOf(floats: Floats, records: seq<Record>, s: PointStats) {
    && |s.returnCounts| == 15
    && (forall k :: 0 <= k < 15 ==> s.returnCounts[k] == CountReturns(records, k + 1))
    && (s.gpsMin.Some? <==> records != []) && (s.gpsMax.Some? <==> records != [])
    && (forall r :: r in records ==> floats.f64(r.gpsTime).Some?)
    && (s.gpsMin.Some? ==> IsLeast(floats, records, s.gpsMin.value))
    && (s.gpsMax.Some? ==> IsGreatest(floats, records, s.gpsMax.value))
  }

  ghost predicate AtTime(floats: Floats, r: Record, t: real) {
    floats.f64(r.gpsTime) == Some(t)
  }

  ghost predicate IsLeast(floats: Floats, records: seq<Record>, t: real) {
    (exists r :: r in records && AtTime(floats, r, t)) &&
    forall r :: r in records && floats.f64(r.gpsTime).Some? ==> t <= floats.f64(r.gpsTime).value
  }

  ghost predicate IsGreatest(floats: Floats, records: seq<Record>, t: real) {
    (exists r :: r in records && AtTime(floats, r, t)) &&
    forall r :: r in records && floats.f64(r.gpsTime).Some? ==> floats.f64(r.gpsTime).value <= t
  }

  lemma LeastGrows(floats: Floats, records: seq<Record>, r: Record, before: Option<real>, t: real)
    requires floats.f64(r.gpsTime) == Some(t)
    requires before.Some? <==> records != []
    requires before.Some? ==> IsLeast(floats, records, before.value)
    ensures IsLeast(floats, records + [r], match before case None => t case Some(m) => RealMin(m, t))
  {
    var all := records + [r];
    var least := match before case None => t case Some(m) => RealMin(m, t);
    assert r in all && AtTime(floats, r, t);
    if before.Some? {
      var w :| w in records && AtTime(floats, w, before.value);
      assert w in all;
    }
  }

  lemma GreatestGrows(floats: Floats, records: seq<Record>, r: Record, before: Option<real>, t: real)
    requires floats.f64(r.gpsTime) == Some(t)
    requires before.Some? <==> records != []
    requires before.Some? ==> IsGreatest(floats, records, before.value)
    ensures IsGreatest(floats, records + [r], match before case None => t case Some(m) => RealMax(m, t))
  {
    var all := records + [r];
    assert r in all && AtTime(floats, r, t);
    if before.Some? {
      var w :| w in records && AtTime(floats, w, before.value);
      assert w in all;
    }
  }

  lemma StatsGrow(floats: Floats, records: seq<Record>, r: Record, s: PointStats)
    requires StatsOf(floats, records, s) && floats.f64(r.gpsTime).Some?
    ensures RecordStats(s, floats, r).Ok? && StatsOf(floats, records + [r], RecordStats(s, floats, r).value)
  {
    hide IsLeast, IsGreatest;
    var all := records + [r];
    assert all[..|records|] == records;
    var t := floats.f64(r.gpsTime).value;
    LeastGrows(floats, records, r, s.gpsMin, t);
    GreatestGrows(floats, records, r, s.gpsMax, t);
    forall k | 0 <= k < 15
      ensures RecordStats(s, floats, r).value.returnCounts[k] == CountReturns(all, k + 1)
    {
      assert CountReturns(all, k + 1) == CountReturns(records, k + 1) + (if r.returnNumber == k + 1 then 1 else 0);
    }
  }

  /** The box holds every record and each of its faces touches one. */
  ghost predicate Tight(floats: Floats, records: seq<Record>, b: Box)
    requires forall i :: 0 <= i < |records| ==> HasPosition(floats, records[i])
  {
    && (forall i :: 0 <= i < |records| ==> b.Contains(Position(floats, records[i])))
    && (exists i :: 0 <= i < |records| && Position(floats, records[i]).x == b.min.x)
    && (exists i :: 0 <= i < |records| && Position(floats, records[i]).y == b.min.y)
    && (exists i :: 0 <= i < |records| && Position(floats, records[i]).z == b.min.z)
    && (exists i :: 0 <= i < |records| && Position(floats, records[i]).x == b.max.x)
    && (exists i :: 0 <= i < |records| && Position(floats, records[i]).y == b.max.y)
    && (exists i :: 0 <= i < |records| && Position(floats, records[i]).z == b.max.z)
  }

  lemma TightGrows(floats: Floats, records: seq<Record>, b: Box)
    requires forall i :: 0 <= i < |records| ==> HasPosition(floats, records[i])
    requires |records| > 1 && Tight(floats, records[..|records| - 1], b)
    ensures Tight(floats, records, Extend(b, Position(floats, records[|records| - 1])))
  {
    hide HasPosition, Position;
    var n := |records| - 1;
    var before := records[..n];
    var p := Position(floats, records[n]);
    var g := Extend(b, p);
    var x :| 0 <= x < n && Position(floats, before[x]).x == b.min.x;
    var y :| 0 <= y < n && Position(floats, before[y]).y == b.min.y;
    var z :| 0 <= z < n && Position(floats, before[z]).z == b.min.z;
    assert Position(floats, records[if p.x < b.min.x then n else x]).x == g.min.x;
    assert Position(floats, records[if p.y < b.min.y then n else y]).y == g.min.y;
    assert Position(floats, records[if p.z < b.min.z then n else z]).z == g.min.z;
    x :| 0 <= x < n && Position(floats, before[x]).x == b.max.x;
    y :| 0 <= y < n && Position(floats, before[y]).y == b.max.y;
    z :| 0 <= z < n && Position(floats, before[z]).z == b.max.z;
    assert Position(floats, records[if p.x > b.max.x then n else x]).x == g.max.x;
    assert Position(floats, records[if p.y > b.max.y then n else y]).y == g.max.y;
    assert Position(floats, records[if p.z > b.max.z then n else z]).z == g.max.z;
    forall i | 0 <= i < |records| ensures g.Contains(Position(floats, records[i])) {
      if i < n {
        assert b.Contains(Position(floats, before[i]));
      }
    }
  }

  /** The bounds of the records accepted so far are as small as they can be. */
  lemma {:induction false} BoundsAreTight(floats: Floats, records: seq<Record>)
    requires records != [] && forall i :: 0 <= i < |records| ==> HasPosition(floats, records[i])
    ensures BoundsOf(floats, records).Some? && Tight(floats, records, BoundsOf(floats, records).value)
  {
    hide HasPosition, Position;
    var n := |records| - 1;
    if n == 0 {
      assert BoundsOf(floats, records[..0]) == None;
      var p := Position(floats, records[0]);
      assert p.x == p.x && Position(floats, records[0]) == p;
    } else {
      BoundsAreTight(floats, records[..n]);
      TightGrows(floats, records, BoundsOf(floats, records[..n]).value);
    }
  }

  // The writer --------------------------------------------------------------

  class SpillWriter {
    const floats: Floats
    const layout: Layout
    const recordWidth: nat
    const scratch: array<byte>
    var file: Option<seq<byte>>
    var count: uint64
    var bounds: Option<Box>
    var stats: PointStats
    ghost var accepted: seq<Record>

    ghost predicate Valid()
      reads this
    {
      && recordWidth == layout.RecordWidth() == scratch.Length
      && AllAcceptable(floats, layout, accepted)
      && count == |accepted| && bounds == BoundsOf(floats, accepted) && StatsOf(floats, accepted, stats)
      && (file.Some? ==> file.value == Images(accepted, layout))
    }

    constructor (floats: Floats, layout: Layout)
      ensures Valid() && fresh(scratch) && this.floats == floats && this.layout == layout
      ensures accepted == [] && file.Some?
    {
      this.floats, this.layout := floats, layout;
      recordWidth := layout.RecordWidth();
      scratch := new byte[layout.RecordWidth()];
      file, count, bounds, stats, accepted := Some([]), 0, None, NO_STATS, [];
    }

    /** Takes in a valid record at the end of the file; a rejected one changes nothing but the scratch buffer. */
    method Push(r: Record) returns (res: Result<()>)
      requires Valid() && count < UINT64_MAX
      modifies this, scratch
      ensures Valid() && (file.Some? <==> old(file.Some?))
      ensures res.Ok? <==> Acceptable(floats, layout, r) && old(file.Some?)
      ensures res.Ok? ==> accepted == old(accepted) + [r]
      ensures res.Err? ==> accepted == old(accepted) && file == old(file) && count == old(count)
      ensures res.Err? ==> bounds == old(bounds) && stats == old(stats)
    {
      hide RecordBytes, StatsOf;
      if !SpillRecordValid(floats, r) {
        return Err(InvalidInput);
      }
      assert |stats.returnCounts| == 15 by {
        StatsSized(floats, accepted, stats);
      }
      var nextStats := RecordStats(stats, floats, r);
      if nextStats.Err? {
        return Err(nextStats.error);
      }
      var serialized := SerializeLe(r, layout, scratch);
      if serialized.Err? {
        return Err(InvalidInput);
      }
      if file.None? {
        return Err(InvalidInput);
      }
      StatsGrow(floats, accepted, r, stats);
      ghost var more := accepted + [r];
      assert more[..|accepted|] == accepted;
      file := Some(file.value + scratch[..]);
      var p := Position(floats, r);
      bounds := Some(match bounds case Some(b) => Extend(b, p) case None => Box(p, p));
      stats := nextStats.value;
      count := count + 1;
      accepted := more;
      return Ok(());
    }

    /** Closes the file and hands its contents to a reader, after checking its length. */
    method Finalize() returns (res: Result<SpillReader>)
      requires Valid()
      modifies this
      ensures Valid() && file.None? && accepted == old(accepted)
      ensures res.Ok? <==> old(file.Some?) && recordWidth * count <= UINT64_MAX
      ensures res.Ok? ==> Holds(res.value, floats, layout, accepted)
    {
      if file.None? {
        return Err(InvalidInput);
      }
      var bytes := file.value;
      file := None;
      ImagesLength(floats, layout, accepted);
      var expected := recordWidth * count;
      if expected > UINT64_MAX {
        return Err(InvalidInput);
      }
      if |bytes| != expected {
        return Err(InvalidInput);
      }
      var box := match bounds case Some(b) => b case None => Box(Vec3(0.0, 0.0, 0.0), Vec3(0.0, 0.0, 0.0));
      return Ok(SpillReader(bytes, layout, recordWidth, count, box, stats));
    }
  }

  lemma StatsSized(floats: Floats, records: seq<Record>, s: PointStats)
    requires StatsOf(floats, records, s)
    ensures |s.returnCounts| == 15
  {
  }

  lemma OneMoreWidth(w: nat, n: nat)
    ensures w * (n + 1) == w * n + w
  {
  }

  lemma {:induction false} ImagesLength(floats: Floats, layout: Layout, records: seq<Record>)
    requires AllAcceptable(floats, layout, records)
    ensures |Images(records, layout)| == layout.RecordWidth() * |records|
  {
    hide RecordBytes, SpillRecordValid, Layout.RecordWidth;
    if records != [] {
      var n := |records| - 1;
      ImagesLength(floats, layout, records[..n]);
      AcceptedWidth(floats, layout, records[n]);
      OneMoreWidth(layout.RecordWidth(), n);
    }
  }

  // Reading back ------------------------------------------------------------

  datatype SpillReader = SpillReader(bytes: seq<byte>, layout: Layout, recordWidth: nat, count: nat, bounds: Box, stats: PointStats) {
    /** `record_bytes` */
    function RecordSlice(index: nat): Result<seq<byte>> {
      var start := index * recordWidth;
      var end := start + recordWidth;
      if end > UINT64_MAX then Err(InvalidData)
      else if end > |bytes| then Err(InvalidData)
      else Ok(bytes[start..end])
    }

    /** `record_at` */
    function RecordAt(index: nat): Result<Record> {
      if index >= count then Err(InvalidInput)
      else
        var src :- RecordSlice(index);
        if |src| != layout.RecordWidth() then Err(InvalidData) else Ok(Decoded(src, layout))
    }

    /** `xyz_at` */
    function XyzAt(index: nat): Result<(uint64, uint64, uint64)>
      requires recordWidth >= 24
    {
      if index >= count then Err(InvalidInput)
      else
        var src :- RecordSlice(index);
        Ok((U64At(src, 0), U64At(src, 8), U64At(src, 16)))
    }
  }

  /** The reader over a finalized file of accepted records. */
  ghost predicate Holds(reader: SpillReader, floats: Floats, layout: Layout, accepted: seq<Record>) {
    && AllAcceptable(floats, layout, accepted)
    && reader.bytes == Images(accepted, layout) && reader.layout == layout && reader.recordWidth == layout.RecordWidth()
    && reader.count == |accepted| && reader.recordWidth * reader.count <= UINT64_MAX
    && StatsOf(floats, accepted, reader.stats)
    && (BoundsOf(floats, accepted).Some? ==> BoundsOf(floats, accepted) == Some(reader.bounds))
  }

  lemma {:induction false} ImagesPrefix(layout: Layout, records: seq<Record>, i: nat)
    requires i <= |records|
    ensures Images(records[..i], layout) <= Images(records, layout)
    decreases |records|
  {
    hide RecordBytes;
    if i < |records| {
      ImagesPrefix(layout, records[..|records| - 1], i);
      assert records[..|records| - 1][..i] == records[..i];
    } else {
      assert records[..i] == records;
    }
  }

  lemma OneMoreImage(layout: Layout, records: seq<Record>, i: nat)
    requires i < |records|
    ensures Images(records[..i + 1], layout) == Images(records[..i], layout) + RecordBytes(records[i], layout)
  {
    hide RecordBytes;
    assert records[..i + 1][..i] == records[..i];
  }

  lemma ImagesSlice(floats: Floats, layout: Layout, records: seq<Record>, i: nat)
    requires AllAcceptable(floats, layout, records) && i < |records|
    ensures var at, w := i * layout.RecordWidth(), layout.RecordWidth();
      at + w <= |Images(records, layout)| && Images(records, layout)[at..at + w] == RecordBytes(records[i], layout)
  {
    hide RecordBytes, SpillRecordValid, Layout.RecordWidth, Images;
    var w := layout.RecordWidth();
    ImagesPrefix(layout, records, i + 1);
    OneMoreImage(layout, records, i);
    ImagesLength(floats, layout, records[..i]);
    AcceptedWidth(floats, layout, records[i]);
    assert w * i == i * w;
    var whole, front := Images(records, layout), Images(records[..i], layout);
    assert whole[..i * w + w] == front + RecordBytes(records[i], layout);
    SliceOfSlice(whole, 0, i * w + w, i * w, i * w + w);
  }

  lemma AcceptedWidth(floats: Floats, layout: Layout, r: Record)
    requires Acceptable(floats, layout, r)
    ensures |RecordBytes(r, layout)| == layout.RecordWidth() && |r.extraBytes| == layout.extraBytes
  {
  }

  /**
   After any run of pushes the finalized file holds the accepted records in order: record `i` reads back as the `i`-th
   accepted one with unstored fields zeroed, its position as stored, and nothing else can be read.
   */
  lemma SpillReadsBack(reader: SpillReader, floats: Floats, layout: Layout, accepted: seq<Record>, i: nat)
    requires Holds(reader, floats, layout, accepted)
    ensures |reader.bytes| == reader.count * reader.recordWidth
    ensures reader.RecordAt(i) == if i < |accepted| then Ok(Stored(accepted[i], layout)) else Err(InvalidInput)
    ensures reader.XyzAt(i) == if i < |accepted| then Ok((accepted[i].x, accepted[i].y, accepted[i].z)) else Err(InvalidInput)
  {
    hide RecordBytes, StatsOf, BoundsOf, Images, Decoded, SpillRecordValid, U64At;
    ImagesLength(floats, layout, accepted);
    if i < |accepted| {
      ImagesSlice(floats, layout, accepted, i);
      AcceptedWidth(floats, layout, accepted[i]);
      SpillRoundTrip(accepted[i], layout);
      RecordParts(accepted[i], layout);
      PositionReads(accepted[i], RecordBytes(accepted[i], layout));
    }
  }
}
