/** From a node's place in the order file to its raw records, and back to the points (copc-writer/src/writer.rs). */
module EncodeNode {
  import opened Core
  import opened Voxel
  import opened Bounds
  import opened Codec
  import Sorting
  import opened LodShape
  import opened LodIndexBuild
  import opened PointRecord
  import opened ChunkWriter
  import opened Columns
  import opened Loader
  import opened Hierarchy
  import opened HierarchyPages
  import opened Selection
  import opened WriteOpen

  /** The points of a write: their fields, the order file and how they are encoded. */
  datatype Points = Points(fields: seq<PointFields>, order: seq<nat>, transform: Transform, format: Format) {
    predicate Valid() {
      transform.Valid()
    }

    /** The node's first slot in the order file. */
    function First(n: LodNodeRange): nat {
      n.start / INDEX_RECORD_BYTES
    }

    /** The node's slots lie in the order file and name points. */
    predicate Listed(n: LodNodeRange) {
      && n.start % INDEX_RECORD_BYTES == 0
      && First(n) + n.count <= |order|
      && forall p :: First(n) <= p < First(n) + n.count ==> order[p] < |fields|
    }

    /** The `j`-th point of a node. */
    function PointOf(n: LodNodeRange, j: nat): PointFields
      requires Listed(n) && j < n.count
    {
      fields[order[First(n) + j]]
    }

    predicate PointEncodes(f: PointFields)
      requires Valid()
    {
      Quantizes(f, transform) && |f.extraBytes| == format.extraLen
    }

    ghost predicate NodeEncodes(n: LodNodeRange)
      requires Valid() && Listed(n)
    {
      forall j :: 0 <= j < n.count ==> PointEncodes(PointOf(n, j))
    }

    /** The raw buffer of a node's first `count` points: one record after another. */
    ghost function Raw(n: LodNodeRange, count: nat): (raw: seq<byte>)
      requires Valid() && Listed(n) && NodeEncodes(n) && count <= n.count
      ensures |raw| == format.Len() * count
    {
      if count == 0 then []
      else
        OneMoreLen(format.Len(), count - 1);
        Raw(n, count - 1) + RecordBytes(PointOf(n, count - 1), transform, format)
    }
  }

  lemma OneMoreLen(len: nat, n: nat)
    ensures len * (n + 1) == len * n + len
  {
  }

  /** `encode_node_points`: reads the node's indices in order and encodes each point into its place. */
  method EncodeNodePoints(points: Points, n: LodNodeRange) returns (r: Result<seq<byte>>)
    requires points.Valid() && points.Listed(n)
    ensures r.Ok? <==> points.NodeEncodes(n)
    ensures r.Ok? ==> r.value == points.Raw(n, n.count)
  {
    hide RecordBytes, Quantizes, Points.Raw;
    var raw: seq<byte> := [];
    var failed := false;
    for pointIndex := 0 to n.count
      invariant forall j :: 0 <= j < pointIndex ==> points.PointEncodes(points.PointOf(n, j))
      invariant points.NodeEncodes(n) ==> raw == points.Raw(n, pointIndex)
    {
      var sourceIndex := points.order[points.First(n) + pointIndex];
      var buf := new byte[points.format.Len()];
      var encoded := EncodePointRecord(buf, points.fields[sourceIndex], points.transform, points.format);
      assert points.PointOf(n, pointIndex) == points.fields[sourceIndex];
      if encoded.Err? {
        return Err(encoded.error);
      }
      if points.NodeEncodes(n) {
        OneMoreRecord(points, n, pointIndex);
      }
      raw := raw + buf[..];
    }
    return Ok(raw);
  }

  lemma OneMoreRecord(points: Points, n: LodNodeRange, j: nat)
    requires points.Valid() && points.Listed(n) && points.NodeEncodes(n) && j < n.count
    ensures points.Raw(n, j + 1) == points.Raw(n, j) + RecordBytes(points.PointOf(n, j), points.transform, points.format)
  {
    hide RecordBytes;
  }

  lemma {:induction false} RawPrefix(points: Points, n: LodNodeRange, a: nat, b: nat)
    requires points.Valid() && points.Listed(n) && points.NodeEncodes(n) && a <= b <= n.count
    ensures points.Raw(n, a) <= points.Raw(n, b)
    decreases b
  {
    hide RecordBytes, Quantizes, Format.Len;
    if a < b {
      RawPrefix(points, n, a, b - 1);
      OneMoreRecord(points, n, b - 1);
    }
  }

  /** Record `j` of a node's buffer is the encoding of its `j`-th point. */
  lemma RawSlice(points: Points, n: LodNodeRange, j: nat)
    requires points.Valid() && points.Listed(n) && points.NodeEncodes(n) && j < n.count
    ensures var len := points.format.Len(); var raw := points.Raw(n, n.count);
      && len * j + len <= |raw|
      && raw[len * j..len * j + len] == RecordBytes(points.PointOf(n, j), points.transform, points.format)
  {
    hide RecordBytes, Quantizes, Points.Raw;
    var len, raw := points.format.Len(), points.Raw(n, n.count);
    RawPrefix(points, n, j + 1, n.count);
    OneMoreRecord(points, n, j);
    assert points.PointEncodes(points.PointOf(n, j));
    OneMoreLen(len, j);
    assert raw[..len * j + len] == points.Raw(n, j) + RecordBytes(points.PointOf(n, j), points.transform, points.format);
    SliceOfSlice(raw, 0, len * j + len, len * j, len * j + len);
  }

  /** The compressor loses nothing: record `j` of a compressed buffer is its `j`-th slice. */
  ghost predicate Lossless(laz: Laz, dec: Decoder) {
    forall raw, j :: dec.format.Len() * j + dec.format.Len() <= |raw| ==>
      dec.record(laz.compress(raw), j) == Ok(raw[dec.format.Len() * j..dec.format.Len() * j + dec.format.Len()])
  }

  /** The writer's nodes are encoded from these points, and the reader decodes with the same format and transform. */
  ghost predicate SameCodec(laz: Laz, dec: Decoder, points: Points, n: LodNodeRange) {
    && points.Valid() && points.Listed(n) && points.NodeEncodes(n)
    && laz.encode(n) == Ok(points.Raw(n, n.count))
    && dec.format == points.format && dec.transform == points.transform
    && dec.Valid() && Lossless(laz, dec)
  }

  /** The row a point comes back as: everything but class 12 unchanged, reals within half a step. */
  ghost predicate RowMatches(row: Row, f: PointFields, t: Transform, format: Format) {
    && FlagsMatch(row, f) && ValuesMatch(row, f, format) && RealsMatch(row, f, t)
    && row.classification == (if f.classification == OVERLAP_CLASSIFICATION_CODE then 1 else f.classification)
  }

  /** Record `j` of a written chunk is the encoding of the node's `j`-th point. */
  lemma RecordIs(laz: Laz, dec: Decoder, points: Points, n: LodNodeRange, j: nat)
    requires SameCodec(laz, dec, points, n) && j < n.count
    ensures points.PointEncodes(points.PointOf(n, j))
    ensures dec.record(laz.Chunk(n), j) == Ok(RecordBytes(points.PointOf(n, j), points.transform, points.format))
  {
    hide RecordBytes, Quantizes, Points.Raw, Format.Len;
    RawSlice(points, n, j);
    assert points.PointEncodes(points.PointOf(n, j));
  }

  /** Every point of a written chunk decodes to a row that matches it. */
  lemma ChunkDecodes(laz: Laz, dec: Decoder, points: Points, n: LodNodeRange, j: nat)
    requires SameCodec(laz, dec, points, n) && j < n.count && Validated(points.PointOf(n, j), points.format)
    ensures dec.record(laz.Chunk(n), j).Ok?
    ensures RowMatches(dec.RowOf(dec.record(laz.Chunk(n), j).value), points.PointOf(n, j), points.transform, points.format)
  {
    hide RecordBytes, Quantizes, Points.Raw, FlagsMatch, ValuesMatch, RealsMatch, Validated, DecodeRow, Format.Len;
    RecordIs(laz, dec, points, n, j);
    PointRoundTrip(points.PointOf(n, j), points.transform, points.format);
    ClassSurvives(points.PointOf(n, j), points.transform, points.format);
  }

  lemma ClassSurvives(f: PointFields, t: Transform, format: Format)
    requires t.Valid() && Quantizes(f, t) && Validated(f, format)
    ensures DecodeRow(RecordBytes(f, t, format), t, format).classification
         == (if f.classification == OVERLAP_CLASSIFICATION_CODE then 1 else f.classification)
  {
    hide RecordBytes, FlagsMatch, ValuesMatch, RealsMatch, DecodeRow, Validated, Quantizes;
    PointRoundTrip(f, t, format);
  }

  // From source point to reader row -----------------------------------------

  lemma IndexListed(points: Points, index: LodIndex, source: seq<Vec3>, center: Vec3, halfsize: real, budget: nat, n: LodNodeRange)
    requires IndexOf(index, source, center, halfsize, budget) && n in index.nodes
    requires points.order == index.order && |points.fields| == |source|
    ensures points.Listed(n)
  {
    hide TreeShape, Contained, AllInside, Sum, SortedByKey;
    Sorting.PermutationMembers(index.order, Iota(|source|));
    SamePermutationLength(index.order, Iota(|source|));
    var first := points.First(n);
    assert n.start == INDEX_RECORD_BYTES * first;
    forall p | first <= p < first + n.count ensures points.order[p] < |points.fields| {
      assert index.order[p] in index.order;
      var k :| 0 <= k < |source| && Iota(|source|)[k] == index.order[p];
    }
  }

  lemma SamePermutationLength(a: seq<nat>, b: seq<nat>)
    requires multiset(a) == multiset(b)
    ensures |a| == |b|
  {
    assert |multiset(a)| == |a| && |multiset(b)| == |b|;
  }

  /** The encoder the writer's body uses, over a lossless compressor the reader undoes. */
  ghost predicate Transcodes(body: Body, dec: Decoder, points: Points) {
    && points.Valid() && dec.Valid() && Lossless(body.laz, dec)
    && dec.format == points.format && dec.transform == points.transform
    && forall n :: n in body.nodes && points.Listed(n) ==>
         body.laz.encode(n) == (if points.NodeEncodes(n) then Ok(points.Raw(n, n.count)) else Err(InvalidInput))
  }

  /**
   End to end: every validated source point in a query's box is decoded by the reader from a chunk the query selects
   (when it allows the chunk's level), to a row that matches the point.
   */
  lemma EveryPointComesBack(body: Body, page: Page, input: CopcInput, index: LodIndex, source: seq<Vec3>, bounds: Box, budget: nat,
    q: PointQuery, box: Box, i: nat, dec: Decoder, points: Points) returns (e: Entry, j: nat)
    requires body.Valid() && body.Wrote(page, input) && WithinReaderLimits(body, page)
    requires Indexed(body, index, source, bounds, budget)
    requires i < |source| && q.bounds == Some(box) && box.Contains(source[i])
    requires Transcodes(body, dec, points) && points.order == index.order
    requires |points.fields| == |source| && Validated(points.fields[i], points.format)
    ensures OpenHierarchy(input).Ok? && j < e.pointCount
    ensures e.offset + e.byteSize <= |input.bytes| && 0 <= e.byteSize
    ensures var found := Select(SortedValues(OpenHierarchy(input).value.hierarchy), CopcInfo(CubeFromBounds(bounds).0, CubeFromBounds(bounds).1), q);
      LevelInRange(e, q) ==> found.Ok? && e in found.value
    ensures var record := dec.record(input.bytes[e.offset..e.offset + e.byteSize], j);
      record.Ok? && |record.value| == dec.format.Len() && RowMatches(dec.RowOf(record.value), points.fields[i], points.transform, points.format)
  {
    hide Body.Wrote, Body.Valid, WithinReaderLimits, IndexOf, OpenHierarchy, SortedValues, Select, CubeFromBounds, LevelInRange, Validated,
      RowMatches, Box.Contains, DecodeRow, Points.Raw, Points.NodeEncodes, Decoder.Valid, Lossless;
    var n, p;
    n, p, e := EveryPointIsFound(body, page, input, index, source, bounds, budget, q, box, i);
    IndexListed(points, index, source, CubeFromBounds(bounds).0, CubeFromBounds(bounds).1, budget, n);
    j := p - points.First(n);
    assert points.PointOf(n, j) == points.fields[i];
    WrittenNodesEncode(body, page, input, n);
    ChunkDecodes(body.laz, dec, points, n, j);
    DecodedSized(dec, body.laz.Chunk(n), j);
  }

  lemma DecodedSized(dec: Decoder, bytes: seq<byte>, j: nat)
    requires dec.Valid()
    ensures dec.record(bytes, j).Ok? ==> |dec.record(bytes, j).value| == dec.format.Len()
  {
  }

  lemma WrittenNodesEncode(body: Body, page: Page, input: CopcInput, n: LodNodeRange)
    requires body.Wrote(page, input) && n in body.nodes
    ensures body.laz.encode(n).Ok?
  {
    hide NodesFit, Packed, NodeEntries;
    assert body.nodes[0..|body.nodes|] == body.nodes;
    AllEncode(body.laz, body.nodes, |body.prefix| + 8, 0, |body.nodes|);
  }
}
