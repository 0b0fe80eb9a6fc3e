/** What a query's column read returns from a written file: exactly the rows of the points it asks for, each once. */
module ReadBack {
  import opened Core
  import opened Voxel
  import opened Bounds
  import opened Codec
  import opened Sorting
  import opened Hierarchy
  import opened HierarchyPages
  import opened LodShape
  import opened LodIndexBuild
  import opened ChunkWriter
  import opened Loader
  import opened LoaderFacts
  import opened RoundTrip
  import opened HierarchyFile
  import opened PagePlan
  import opened Selection
  import opened Requests
  import opened LazyEager
  import opened LazyReady
  import opened PointRecord
  import opened Columns
  import opened Layouts
  import opened ColumnContents
  import opened EncodeNode
  import opened WriteOpen

  // The rows of points ------------------------------------------------------

  ghost predicate Encoded(points: Points, i: nat) {
    points.Valid() && i < |points.fields| && points.PointEncodes(points.fields[i])
  }

  /** The row a source point comes back as. */
  ghost function RowAt(points: Points, i: nat): Row
    requires Encoded(points, i)
  {
    DecodeRow(RecordBytes(points.fields[i], points.transform, points.format), points.transform, points.format)
  }

  ghost function RowsAt(points: Points, ids: seq<nat>): (rows: seq<Row>)
    requires forall i :: i in ids ==> Encoded(points, i)
    ensures |rows| == |ids| && forall k :: 0 <= k < |ids| ==> rows[k] == RowAt(points, ids[k])
  {
    seq(|ids|, k requires 0 <= k < |ids| => RowAt(points, ids[k]))
  }

  /** A validated point's row matches it. */
  lemma RowAtMatches(points: Points, i: nat)
    requires Encoded(points, i) && Validated(points.fields[i], points.format)
    ensures RowMatches(RowAt(points, i), points.fields[i], points.transform, points.format)
  {
    hide RecordBytes, FlagsMatch, ValuesMatch, RealsMatch, Validated, DecodeRow, Quantizes;
    PointRoundTrip(points.fields[i], points.transform, points.format);
    ClassSurvives(points.fields[i], points.transform, points.format);
  }

  ghost predicate OnAxis(v: real, axis: Axis) {
    exists n: int32 :: v == Direct(n, axis)
  }

  /** The point's coordinates are multiples of the file's scales. */
  ghost predicate OnGrid(f: PointFields, t: Transform) {
    OnAxis(f.x, t.x) && OnAxis(f.y, t.y) && OnAxis(f.z, t.z)
  }

  lemma AxisReadsBack(v: real, axis: Axis)
    requires axis.Valid() && OnAxis(v, axis)
    ensures QuantizeAxis(v, axis).Ok? && Direct(QuantizeAxis(v, axis).value, axis) == v
  {
    hide Direct, QuantizeAxis;
    var n: int32 :| v == Direct(n, axis);
    GridRoundTrip(n, axis);
  }

  /** A row's coordinates are the quantized ones, scaled back. */
  lemma RowPosition(points: Points, i: nat)
    requires Encoded(points, i)
    ensures var f, t := points.fields[i], points.transform;
      && RowAt(points, i).x == Direct(QuantizeAxis(f.x, t.x).value, t.x)
      && RowAt(points, i).y == Direct(QuantizeAxis(f.y, t.y).value, t.y)
      && RowAt(points, i).z == Direct(QuantizeAxis(f.z, t.z).value, t.z)
  {
    hide I32Le, BitAnd, Shr, QuantizeAxis, RecordBytes, FromLe, Direct;
    var f, t := points.fields[i], points.transform;
    RecordSlices(f, t, points.format);
    I32RoundTrip(QuantizeAxis(f.x, t.x).value);
    I32RoundTrip(QuantizeAxis(f.y, t.y).value);
    I32RoundTrip(QuantizeAxis(f.z, t.z).value);
  }

  /** A coordinate on the grid comes back exactly, whatever the others are. */
  lemma GridCoordinates(points: Points, i: nat)
    requires Encoded(points, i)
    ensures OnGridExact(RowAt(points, i), points.fields[i], points.transform)
  {
    hide OnAxis, QuantizeAxis, Direct, RowAt;
    RowPosition(points, i);
    var f, t := points.fields[i], points.transform;
    if OnAxis(f.x, t.x) {
      AxisReadsBack(f.x, t.x);
    }
    if OnAxis(f.y, t.y) {
      AxisReadsBack(f.y, t.y);
    }
    if OnAxis(f.z, t.z) {
      AxisReadsBack(f.z, t.z);
    }
  }

  lemma GridPosition(points: Points, i: nat)
    requires Encoded(points, i) && OnGrid(points.fields[i], points.transform)
    ensures RowAt(points, i).x == points.fields[i].x && RowAt(points, i).y == points.fields[i].y && RowAt(points, i).z == points.fields[i].z
  {
    hide OnAxis, RowAt, Encoded;
    GridCoordinates(points, i);
  }

  // Cells and points --------------------------------------------------------

  /** Place `j` of a column holds the point's field of that name: reals to half a step, on the grid exactly; class 12 as 1; all else unchanged. */
  ghost predicate HoldsPoint(dim: Dimension, cells: seq<Cell>, j: nat, f: PointFields, t: Transform, format: Format) {
    if dim == ExtraBytes then
      var w := format.extraLen;
      w * j + w <= |cells| && |f.extraBytes| == w && forall m :: w * j <= m < w * j + w ==> cells[m] == Word(f.extraBytes[m - w * j])
    else
      j < |cells| &&
      match dim
      case X =>
        cells[j].Real? && -(t.x.scale * 0.5) <= cells[j].r - f.x <= t.x.scale * 0.5 && (OnAxis(f.x, t.x) ==> cells[j].r == f.x)
      case Y =>
        cells[j].Real? && -(t.y.scale * 0.5) <= cells[j].r - f.y <= t.y.scale * 0.5 && (OnAxis(f.y, t.y) ==> cells[j].r == f.y)
      case Z =>
        cells[j].Real? && -(t.z.scale * 0.5) <= cells[j].r - f.z <= t.z.scale * 0.5 && (OnAxis(f.z, t.z) ==> cells[j].r == f.z)
      case Intensity => cells[j] == Word(f.intensity)
      case ReturnNumber => cells[j] == Word(f.returnNumber)
      case NumberOfReturns => cells[j] == Word(f.numberOfReturns)
      case Classification => cells[j] == Word(if f.classification == 12 then 1 else f.classification)
      case ScanDirectionFlag => cells[j] == Flag(f.scanDirectionFlag == 1)
      case EdgeOfFlightLine => cells[j] == Flag(f.edgeOfFlightLine == 1)
      case ScanAngle => cells[j].Real? && -0.003 <= cells[j].r - f.scanAngle <= 0.003
      case UserData => cells[j] == Word(f.userData)
      case PointSourceId => cells[j] == Word(f.pointSourceId)
      case Synthetic => cells[j] == Flag(f.synthetic == 1)
      case KeyPoint => cells[j] == Flag(f.keyPoint == 1)
      case Withheld => cells[j] == Flag(f.withheld == 1)
      case Overlap => cells[j] == Flag(f.overlap == 1)
      case ScanChannel => cells[j] == Word(f.scanChannel)
      case GpsTime => cells[j] == Word(f.gpsTime)
      case Red => cells[j] == Word(if format.hasColor then f.red else 0)
      case Green => cells[j] == Word(if format.hasColor then f.green else 0)
      case Blue => cells[j] == Word(if format.hasColor then f.blue else 0)
      case ExtraBytes => true
  }

  lemma MatchedField(dim: Dimension, cells: seq<Cell>, j: nat, row: Row, f: PointFields, t: Transform, format: Format)
    requires HoldsField(dim, cells, j, row) && RowMatches(row, f, t, format) && |f.extraBytes| == format.extraLen
    requires OnGridExact(row, f, t)
    ensures HoldsPoint(dim, cells, j, f, t, format)
  {
    hide OnAxis;
  }

  ghost predicate OnGridExact(row: Row, f: PointFields, t: Transform) {
    (OnAxis(f.x, t.x) ==> row.x == f.x) && (OnAxis(f.y, t.y) ==> row.y == f.y) && (OnAxis(f.z, t.z) ==> row.z == f.z)
  }

  /** Every column holds, at place `j`, what point `ids[j]` was written with. */
  ghost predicate ColumnHoldsPoints(column: Column, dim: Dimension, points: Points, ids: seq<nat>) {
    && column.dim == dim && |column.cells| == (if dim == ExtraBytes then points.format.extraLen else 1) * |ids|
    && forall j :: 0 <= j < |ids| ==> HoldsPointAt(dim, column.cells, j, points, ids[j])
  }

  ghost predicate HoldsPointAt(dim: Dimension, cells: seq<Cell>, j: nat, points: Points, i: nat) {
    && i < |points.fields|
    && (FieldsFit(points.fields[i], points.format) ==>
          HoldsPoint(dim, cells, j, points.fields[i], points.transform, points.format))
  }

  ghost predicate BatchHoldsPoints(batch: Batch, dims: seq<Dimension>, points: Points, ids: seq<nat>) {
    && batch.len == |ids| && |batch.columns| == |dims|
    && forall d :: 0 <= d < |dims| ==> ColumnHoldsPoints(batch.columns[d], dims[d], points, ids)
  }

  lemma RowsAtEven(points: Points, ids: seq<nat>)
    requires forall i :: i in ids ==> Encoded(points, i)
    ensures Even(RowsAt(points, ids), points.format)
  {
    hide RecordBytes, DecodeRow, Quantizes;
    forall j | 0 <= j < |ids| ensures |RowsAt(points, ids)[j].extraBytes| == points.format.extraLen {
      assert ids[j] in ids;
      RowAtSized(points, ids[j]);
    }
  }

  lemma RowAtSized(points: Points, i: nat)
    requires Encoded(points, i)
    ensures |RowAt(points, i).extraBytes| == points.format.extraLen
  {
    hide RecordBytes;
  }

  lemma PointColumn(dim: Dimension, points: Points, ids: seq<nat>)
    requires forall i :: i in ids ==> Encoded(points, i)
    ensures ColumnHoldsPoints(Column(dim, ColumnCells(dim, RowsAt(points, ids))), dim, points, ids)
  {
    hide RowAt, Encoded, ColumnCells, HoldsField, HoldsPoint, FieldsFit, RowMatches, Validated, OnGridExact;
    var rows := RowsAt(points, ids);
    RowsAtEven(points, ids);
    ColumnCellsSize(dim, rows, points.format);
    forall j | 0 <= j < |ids|
      ensures HoldsPointAt(dim, ColumnCells(dim, rows), j, points, ids[j])
    {
      assert ids[j] in ids;
      EncodedIs(points, ids[j]);
      if FieldsFit(points.fields[ids[j]], points.format) {
        ValidatedExactly(points.fields[ids[j]], points.format);
        ColumnHolds(dim, rows, points.format, j);
        RowAtMatches(points, ids[j]);
        GridCoordinates(points, ids[j]);
        MatchedField(dim, ColumnCells(dim, rows), j, rows[j], points.fields[ids[j]], points.transform, points.format);
      }
    }
  }

  lemma EncodedIs(points: Points, i: nat)
    requires Encoded(points, i)
    ensures i < |points.fields| && |points.fields[i].extraBytes| == points.format.extraLen
  {
  }

  lemma PointBatch(dims: seq<Dimension>, points: Points, ids: seq<nat>)
    requires forall i :: i in ids ==> Encoded(points, i)
    ensures BatchHoldsPoints(Batch(|ids|, Filled(dims, RowsAt(points, ids))), dims, points, ids)
  {
    hide Encoded, ColumnHoldsPoints, ColumnCells, RowsAt;
    forall d | 0 <= d < |dims| ensures ColumnHoldsPoints(Filled(dims, RowsAt(points, ids))[d], dims[d], points, ids) {
      PointColumn(dims[d], points, ids);
    }
  }

  // One chunk ---------------------------------------------------------------

  /** The points of a node's first `count` slots whose rows the reader's box keeps. */
  ghost function IdsIn(dec: Decoder, points: Points, n: LodNodeRange, count: nat): (ids: seq<nat>)
    requires points.Valid() && points.Listed(n) && points.NodeEncodes(n) && count <= n.count
    ensures forall i :: i in ids ==> Encoded(points, i)
  {
    if count == 0 then []
    else
      assert points.PointEncodes(points.PointOf(n, count - 1));
      var i := points.order[points.First(n) + (count - 1)];
      IdsIn(dec, points, n, count - 1) + (if dec.Accepts(RowAt(points, i)) then [i] else [])
  }

  lemma {:induction false} NodeRows(laz: Laz, dec: Decoder, points: Points, n: LodNodeRange, count: nat)
    requires SameCodec(laz, dec, points, n) && count <= n.count
    ensures dec.Decodes(laz.Chunk(n), count)
    ensures dec.Rows(laz.Chunk(n), count) == RowsAt(points, IdsIn(dec, points, n, count))
    decreases count
  {
    hide RecordBytes, DecodeRow, Decoder.Accepts, Points.Raw, Quantizes, Decoder.Rows, Laz.Chunk, Lossless, Decoder.Valid, IdsIn;
    DecoderValid(laz, dec, points, n);
    if count == 0 {
      NoRows(dec, laz.Chunk(n));
      NoIds(dec, points, n);
    } else {
      NodeRows(laz, dec, points, n, count - 1);
      RecordIs(laz, dec, points, n, count - 1);
      OneMoreRow(dec, laz.Chunk(n), count - 1);
      OneMoreId(dec, points, n, count - 1);
    }
  }

  lemma DecoderValid(laz: Laz, dec: Decoder, points: Points, n: LodNodeRange)
    requires SameCodec(laz, dec, points, n)
    ensures dec.Valid()
  {
  }

  lemma NoIds(dec: Decoder, points: Points, n: LodNodeRange)
    requires points.Valid() && points.Listed(n) && points.NodeEncodes(n)
    ensures IdsIn(dec, points, n, 0) == []
  {
  }

  lemma OneMoreId(dec: Decoder, points: Points, n: LodNodeRange, count: nat)
    requires points.Valid() && points.Listed(n) && points.NodeEncodes(n) && count < n.count
    ensures var i := points.order[points.First(n) + count];
      && points.PointOf(n, count) == points.fields[i] && Encoded(points, i)
      && IdsIn(dec, points, n, count + 1) == IdsIn(dec, points, n, count) + (if dec.Accepts(RowAt(points, i)) then [i] else [])
  {
    hide RowAt, Decoder.Accepts, Quantizes;
    assert points.PointEncodes(points.PointOf(n, count));
  }

  /** Point `i` is in one of the node's first `count` slots. */
  ghost predicate InSlots(points: Points, n: LodNodeRange, count: nat, i: nat)
    requires points.Listed(n) && count <= n.count
  {
    exists p :: points.First(n) <= p < points.First(n) + count && points.order[p] == i
  }

  lemma {:induction false} IdsAreSlots(dec: Decoder, points: Points, n: LodNodeRange, count: nat)
    requires points.Valid() && points.Listed(n) && points.NodeEncodes(n) && count <= n.count
    ensures forall i :: i in IdsIn(dec, points, n, count) <==>
      InSlots(points, n, count, i) && Encoded(points, i) && dec.Accepts(RowAt(points, i))
  {
    hide RowAt, Decoder.Accepts, Quantizes, IdsIn, Points.NodeEncodes, Points.PointEncodes;
    if count == 0 {
      NoIds(dec, points, n);
    } else {
      IdsAreSlots(dec, points, n, count - 1);
      OneMoreId(dec, points, n, count - 1);
      var last := points.First(n) + (count - 1);
      forall i ensures InSlots(points, n, count, i) <==> InSlots(points, n, count - 1, i) || i == points.order[last] {
      }
    }
  }

  lemma {:induction false} IdsOnce(dec: Decoder, points: Points, n: LodNodeRange, count: nat)
    requires points.Valid() && points.Listed(n) && points.NodeEncodes(n) && count <= n.count && NoRepeat(points.order)
    ensures NoRepeat(IdsIn(dec, points, n, count))
  {
    hide RowAt, Decoder.Accepts, Quantizes, IdsIn, Points.NodeEncodes, Points.PointEncodes;
    if count == 0 {
      NoIds(dec, points, n);
    } else {
      IdsOnce(dec, points, n, count - 1);
      OneMoreId(dec, points, n, count - 1);
      IdsAreSlots(dec, points, n, count - 1);
      var i := points.order[points.First(n) + (count - 1)];
      assert !InSlots(points, n, count - 1, i);
      NoRepeatAppend(IdsIn(dec, points, n, count - 1), [i]);
    }
  }

  // Many chunks -------------------------------------------------------------

  ghost predicate AllCoded(laz: Laz, dec: Decoder, points: Points, nodes: seq<LodNodeRange>) {
    forall n :: n in nodes ==> SameCodec(laz, dec, points, n)
  }

  ghost function IdsOf(laz: Laz, dec: Decoder, points: Points, nodes: seq<LodNodeRange>): (ids: seq<nat>)
    requires AllCoded(laz, dec, points, nodes)
    ensures forall i :: i in ids ==> Encoded(points, i)
  {
    if nodes == [] then []
    else
      var n := nodes[|nodes| - 1];
      assert SameCodec(laz, dec, points, n);
      IdsOf(laz, dec, points, nodes[..|nodes| - 1]) + IdsIn(dec, points, n, n.count)
  }

  ghost function NodeChunks(laz: Laz, nodes: seq<LodNodeRange>): (chunks: seq<Chunk>)
    ensures |chunks| == |nodes|
  {
    seq(|nodes|, k requires 0 <= k < |nodes| => Chunk(laz.Chunk(nodes[k]), nodes[k].count))
  }

  lemma {:induction false} NodesRows(laz: Laz, dec: Decoder, points: Points, nodes: seq<LodNodeRange>)
    requires AllCoded(laz, dec, points, nodes) && dec.Valid()
    ensures dec.AllDecode(NodeChunks(laz, nodes))
    ensures dec.AllRows(NodeChunks(laz, nodes)) == RowsAt(points, IdsOf(laz, dec, points, nodes))
  {
    hide SameCodec, Decoder.Rows, Decoder.Decodes, Decoder.Valid, IdsIn, Laz.Chunk, RowAt, Encoded, Decoder.AllRows, Decoder.AllDecode;
    if nodes == [] {
      NoChunks(dec);
      assert NodeChunks(laz, nodes) == [];
    } else {
      var k := |nodes| - 1;
      var n := nodes[k];
      NodesRows(laz, dec, points, nodes[..k]);
      assert n in nodes;
      CodedListed(laz, dec, points, n);
      NodeRows(laz, dec, points, n, n.count);
      var chunks := NodeChunks(laz, nodes);
      assert chunks[..k] == NodeChunks(laz, nodes[..k]) && chunks[..k + 1] == chunks;
      OneMoreChunk(dec, chunks, k);
      assert IdsOf(laz, dec, points, nodes) == IdsOf(laz, dec, points, nodes[..k]) + IdsIn(dec, points, n, n.count);
    }
  }

  lemma CodedListed(laz: Laz, dec: Decoder, points: Points, n: LodNodeRange)
    requires SameCodec(laz, dec, points, n)
    ensures points.Valid() && points.Listed(n) && points.NodeEncodes(n)
  {
  }

  /** Point `i` is listed by one of the nodes. */
  ghost predicate InNodes(points: Points, nodes: seq<LodNodeRange>, i: nat) {
    exists n :: n in nodes && Lists(points, n, i)
  }

  lemma {:induction false} IdsAreListed(laz: Laz, dec: Decoder, points: Points, nodes: seq<LodNodeRange>)
    requires AllCoded(laz, dec, points, nodes)
    ensures forall i :: i in IdsOf(laz, dec, points, nodes) <==>
      InNodes(points, nodes, i) && Encoded(points, i) && dec.Accepts(RowAt(points, i))
  {
    hide SameCodec, IdsIn, RowAt, Encoded, Decoder.Accepts, InSlots, Points.Listed, Points.NodeEncodes, Points.Valid;
    if nodes != [] {
      var k := |nodes| - 1;
      var n := nodes[k];
      IdsAreListed(laz, dec, points, nodes[..k]);
      assert n in nodes;
      CodedListed(laz, dec, points, n);
      IdsAreSlots(dec, points, n, n.count);
      forall i ensures InNodes(points, nodes, i) <==> InNodes(points, nodes[..k], i) || InSlots(points, n, n.count, i) {
        if InNodes(points, nodes, i) {
          var m :| m in nodes && Lists(points, m, i);
          assert m == n || m in nodes[..k];
        }
      }
    }
  }

  /** No two of the nodes list the same point. */
  ghost predicate ListApart(points: Points, nodes: seq<LodNodeRange>) {
    forall m, n, i :: m in nodes && n in nodes && Lists(points, m, i) && Lists(points, n, i) ==> m == n
  }

  ghost predicate Lists(points: Points, n: LodNodeRange, i: nat) {
    points.Listed(n) && InSlots(points, n, n.count, i)
  }

  lemma {:induction false} IdsOfOnce(laz: Laz, dec: Decoder, points: Points, nodes: seq<LodNodeRange>)
    requires AllCoded(laz, dec, points, nodes) && NoRepeat(points.order) && NoRepeat(nodes) && ListApart(points, nodes)
    ensures NoRepeat(IdsOf(laz, dec, points, nodes))
  {
    hide SameCodec, IdsIn, RowAt, Encoded, Decoder.Accepts, InSlots, Points.Listed, Points.NodeEncodes, Points.Valid;
    if nodes != [] {
      var k := |nodes| - 1;
      var n := nodes[k];
      IdsOfOnce(laz, dec, points, nodes[..k]);
      IdsAreListed(laz, dec, points, nodes[..k]);
      assert n in nodes;
      CodedListed(laz, dec, points, n);
      IdsAreSlots(dec, points, n, n.count);
      IdsOnce(dec, points, n, n.count);
      forall i | i in IdsOf(laz, dec, points, nodes[..k]) ensures i !in IdsIn(dec, points, n, n.count) {
        var m :| m in nodes[..k] && Lists(points, m, i);
        var j :| 0 <= j < k && nodes[..k][j] == m;
        assert m in nodes && nodes[j] != nodes[k];
      }
      NoRepeatAppend(IdsOf(laz, dec, points, nodes[..k]), IdsIn(dec, points, n, n.count));
    }
  }

  // The index's nodes -------------------------------------------------------

  /** The points written are the source's, in the index's order. */
  ghost predicate Ordered(index: LodIndex, source: seq<Vec3>, points: Points) {
    && points.order == index.order && |points.fields| == |source|
    && forall i :: 0 <= i < |source| ==> source[i] == Vec3(points.fields[i].x, points.fields[i].y, points.fields[i].z)
  }

  lemma OrderOnce(index: LodIndex, source: seq<Vec3>, center: Vec3, halfsize: real, budget: nat)
    requires IndexOf(index, source, center, halfsize, budget)
    ensures NoRepeat(index.order) && forall i :: i in index.order ==> i < |source|
  {
    hide TreeShape, CoveredOnce, Contained, AllInside, Sum, SortedByKey;
    PermutationMembers(index.order, Iota(|source|));
    forall p, q | 0 <= p < q < |index.order| ensures index.order[p] != index.order[q] {
      if index.order[p] == index.order[q] {
        SlotUnique(index.order, |source|, p, q);
      }
    }
    forall i | i in index.order ensures i < |source| {
      var k :| 0 <= k < |source| && Iota(|source|)[k] == i;
    }
  }

  /** A node of the index lists exactly the points at its slots. */
  lemma ListsAtSlots(points: Points, index: LodIndex, source: seq<Vec3>, center: Vec3, halfsize: real, budget: nat, n: LodNodeRange, i: nat)
    requires IndexOf(index, source, center, halfsize, budget) && Ordered(index, source, points) && n in index.nodes
    ensures Lists(points, n, i) <==> exists p :: PointAt(index, n, p, i)
  {
    hide TreeShape, Contained, AllInside, Sum, SortedByKey, IndexOf, Points.Listed;
    IndexListed(points, index, source, center, halfsize, budget, n);
    NodeStart(points, n);
    if Lists(points, n, i) {
      var p :| points.First(n) <= p < points.First(n) + n.count && points.order[p] == i;
      assert PointAt(index, n, p, i);
    }
    if p :| PointAt(index, n, p, i) {
      assert points.First(n) <= p < points.First(n) + n.count && points.order[p] == i;
    }
  }

  lemma NodeStart(points: Points, n: LodNodeRange)
    requires points.Listed(n)
    ensures n.start == INDEX_RECORD_BYTES * points.First(n) && points.First(n) + n.count <= |points.order|
  {
  }

  lemma NodesListApart(points: Points, index: LodIndex, source: seq<Vec3>, center: Vec3, halfsize: real, budget: nat, nodes: seq<LodNodeRange>)
    requires IndexOf(index, source, center, halfsize, budget) && Ordered(index, source, points)
    requires forall n :: n in nodes ==> n in index.nodes
    ensures ListApart(points, nodes)
  {
    hide IndexOf, Lists, PointAt;
    forall m, n, i | m in nodes && n in nodes && Lists(points, m, i) && Lists(points, n, i) ensures m == n {
      ListsAtSlots(points, index, source, center, halfsize, budget, m, i);
      ListsAtSlots(points, index, source, center, halfsize, budget, n, i);
      var p :| PointAt(index, m, p, i);
      var q :| PointAt(index, n, q, i);
      SlotInSource(index, source, center, halfsize, budget, m, p, i);
      EveryPointInOneNode(index, source, center, halfsize, budget, i);
    }
  }

  lemma SlotInSource(index: LodIndex, source: seq<Vec3>, center: Vec3, halfsize: real, budget: nat, n: LodNodeRange, p: int, i: nat)
    requires IndexOf(index, source, center, halfsize, budget) && PointAt(index, n, p, i)
    ensures i < |source|
  {
    hide IndexOf;
    OrderOnce(index, source, center, halfsize, budget);
    assert index.order[p] in index.order;
  }

  // The selected chunks -----------------------------------------------------

  ghost predicate InBytes(bytes: seq<byte>, e: Entry) {
    0 <= e.byteSize && e.offset + e.byteSize <= |bytes| && e.pointCount >= 0
  }

  /** The chunks the reader fetches for a selection. */
  ghost function ChunksAt(bytes: seq<byte>, entries: seq<Entry>): (chunks: seq<Chunk>)
    requires AllInBytes(bytes, entries)
    ensures |chunks| == |entries|
  {
    seq(|entries|, k requires 0 <= k < |entries| => ChunkAt(bytes, entries[k]))
  }

  ghost predicate AllInBytes(bytes: seq<byte>, entries: seq<Entry>) {
    forall k :: 0 <= k < |entries| ==> InBytes(bytes, entries[k])
  }

  ghost function ChunkAt(bytes: seq<byte>, e: Entry): Chunk
    requires InBytes(bytes, e)
  {
    Chunk(bytes[e.offset..e.offset + e.byteSize], e.pointCount)
  }

  /** The entry is the one written for the node. */
  ghost predicate Records(body: Body, bytes: seq<byte>, e: Entry, n: LodNodeRange) {
    && n in body.nodes && e.key == n.key && e.pointCount == n.count && InBytes(bytes, e)
    && bytes[e.offset..e.offset + e.byteSize] == body.laz.Chunk(n)
  }

  /** Every chunk entry of an opened written file was written for a node. */
  lemma EntryNode(body: Body, page: Page, input: CopcInput, h: EntryMap, e: Entry) returns (n: LodNodeRange)
    requires body.Valid() && body.Wrote(page, input) && LoadedExactly(h, body.Entries())
    requires e.key in h && h[e.key] == e && e.HasPointData()
    ensures Records(body, input.bytes, e, n)
  {
    hide Body.Wrote, Body.Valid, LoadedExactly, Body.Entries, Laz.Chunk;
    ExactlyWritten(body, page, input, h, e);
    var k :| 0 <= k < |body.Entries()| && body.Entries()[k] == e;
    EntryKeys(body, page, input, k);
    var stored := StoredChunk(body, page, input, k);
    LoadedHas(h, body, page, input, stored);
    n := body.nodes[k];
  }

  lemma ExactlyWritten(body: Body, page: Page, input: CopcInput, h: EntryMap, e: Entry)
    requires body.Wrote(page, input) && LoadedExactly(h, body.Entries())
    requires e.key in h && h[e.key] == e && e.HasPointData()
    ensures body.Fits() && e in body.Entries()
  {
    hide Body.Entries;
  }

  lemma EntryKeys(body: Body, page: Page, input: CopcInput, k: nat)
    requires body.Valid() && body.Wrote(page, input) && k < |body.Entries()|
    ensures k < |body.nodes| && body.Entries()[k].key == body.nodes[k].key
  {
    hide NodesFit, NodeEntries, Packed, WroteHierarchy, PlanOf, TreeBytes, Section;
    EntriesValid(body.laz, body.nodes, |body.prefix| + 8);
  }

  lemma NodeEntryLoaded(body: Body, page: Page, input: CopcInput, h: EntryMap, n: LodNodeRange) returns (e: Entry)
    requires body.Valid() && body.Wrote(page, input) && LoadedExactly(h, body.Entries()) && n in body.nodes
    ensures e.key == n.key && e.HasPointData() && e.key in h && h[e.key] == e
  {
    hide Body.Wrote, Body.Valid, LoadedExactly, Body.Entries, Laz.Chunk;
    var k :| 0 <= k < |body.nodes| && body.nodes[k] == n;
    e := StoredChunk(body, page, input, k);
    LoadedHas(h, body, page, input, e);
  }

  ghost predicate AllRecorded(body: Body, bytes: seq<byte>, entries: seq<Entry>, nodes: seq<LodNodeRange>) {
    |nodes| == |entries| && forall k :: 0 <= k < |entries| ==> Records(body, bytes, entries[k], nodes[k])
  }

  lemma {:induction false} EntriesNodes(body: Body, page: Page, input: CopcInput, h: EntryMap, entries: seq<Entry>)
    returns (nodes: seq<LodNodeRange>)
    requires body.Valid() && body.Wrote(page, input) && LoadedExactly(h, body.Entries())
    requires forall e :: e in entries ==> e.key in h && h[e.key] == e && e.HasPointData()
    ensures AllRecorded(body, input.bytes, entries, nodes)
  {
    hide Body.Wrote, Body.Valid, LoadedExactly, Body.Entries, Records;
    nodes := [];
    if entries != [] {
      var k := |entries| - 1;
      var before := EntriesNodes(body, page, input, h, entries[..k]);
      assert entries[k] in entries;
      var n := EntryNode(body, page, input, h, entries[k]);
      nodes := before + [n];
    }
  }

  lemma ChunksOfNodes(body: Body, bytes: seq<byte>, entries: seq<Entry>, nodes: seq<LodNodeRange>)
    requires AllRecorded(body, bytes, entries, nodes)
    ensures AllInBytes(bytes, entries)
    ensures ChunksAt(bytes, entries) == NodeChunks(body.laz, nodes)
    ensures forall n :: n in nodes ==> n in body.nodes
    ensures DistinctEntryKeys(entries) ==> NoRepeat(nodes)
    ensures forall n :: n in nodes ==> exists e :: e in entries && e.key == n.key
  {
    hide Laz.Chunk;
    forall k | 0 <= k < |entries| ensures InBytes(bytes, entries[k]) {
      assert Records(body, bytes, entries[k], nodes[k]);
    }
    forall n | n in nodes ensures n in body.nodes && exists e :: e in entries && e.key == n.key {
      var k :| 0 <= k < |nodes| && nodes[k] == n;
      assert Records(body, bytes, entries[k], nodes[k]) && entries[k] in entries;
    }
    forall k | 0 <= k < |entries| ensures ChunksAt(bytes, entries)[k] == NodeChunks(body.laz, nodes)[k] {
      assert Records(body, bytes, entries[k], nodes[k]);
    }
    if DistinctEntryKeys(entries) {
      forall i, j | 0 <= i < j < |nodes| ensures nodes[i] != nodes[j] {
        assert Records(body, bytes, entries[i], nodes[i]) && Records(body, bytes, entries[j], nodes[j]);
      }
    }
  }

  // Whole queries -----------------------------------------------------------

  ghost function InfoOf(bounds: Box): CopcInfo {
    CopcInfo(CubeFromBounds(bounds).0, CubeFromBounds(bounds).1)
  }

  /** The node's chunk is one the query reads. */
  ghost predicate Wants(q: PointQuery, bounds: Box, n: LodNodeRange) {
    n.key.Valid() && AsksFor(q.lod, n.key.level) && Meets(n.key, InfoOf(bounds), q.bounds)
  }

  ghost predicate InBox(q: PointQuery, at: Vec3) {
    q.bounds.Some? ==> Spans(q.bounds.value, at)
  }

  function Position(row: Row): Vec3 {
    Vec3(row.x, row.y, row.z)
  }

  /** Point `i` is at a slot of a node the query reads, and its row is in the query's box. */
  ghost predicate Returned(index: LodIndex, bounds: Box, points: Points, q: PointQuery, i: nat) {
    Encoded(points, i) && InBox(q, Position(RowAt(points, i))) && exists n, p :: PointAt(index, n, p, i) && Wants(q, bounds, n)
  }

  ghost predicate Accepted(q: PointQuery) {
    LodAccepted(q.lod) && BoxAccepted(q.bounds)
  }

  /** A written file of a source, opened, and a reader of it. */
  ghost predicate Setting(body: Body, page: Page, input: CopcInput, index: LodIndex, source: seq<Vec3>, bounds: Box, budget: nat,
    dec: Decoder, points: Points)
  {
    && body.Valid() && body.Wrote(page, input) && WithinReaderLimits(body, page)
    && Indexed(body, index, source, bounds, budget)
    && Transcodes(body, dec, points) && Ordered(index, source, points)
  }

  /** Each node of a written file was encoded from its points. */
  lemma NodeCoded(body: Body, page: Page, input: CopcInput, index: LodIndex, source: seq<Vec3>, bounds: Box, budget: nat,
    dec: Decoder, points: Points, n: LodNodeRange)
    requires Setting(body, page, input, index, source, bounds, budget, dec, points) && n in body.nodes
    ensures SameCodec(body.laz, dec, points, n)
  {
    hide Body.Wrote, Body.Valid, WithinReaderLimits, IndexOf, CubeFromBounds, Points.Raw, Points.NodeEncodes, Decoder.Valid, Lossless,
      Points.Listed, Box.Ordered, Box.Contains;
    IndexListed(points, index, source, CubeFromBounds(bounds).0, CubeFromBounds(bounds).1, budget, n);
    WrittenNodesEncode(body, page, input, n);
  }

  lemma SettingIndex(body: Body, page: Page, input: CopcInput, index: LodIndex, source: seq<Vec3>, bounds: Box, budget: nat,
    dec: Decoder, points: Points)
    requires Setting(body, page, input, index, source, bounds, budget, dec, points)
    ensures IndexOf(index, source, CubeFromBounds(bounds).0, CubeFromBounds(bounds).1, budget) && Ordered(index, source, points)
    ensures index.nodes == body.nodes && dec.Valid() && body.Valid() && body.Wrote(page, input)
    ensures OpenHierarchy(input).Ok? && LoadedExactly(OpenHierarchy(input).value.hierarchy, body.Entries())
  {
    hide Body.Wrote, Body.Valid, WithinReaderLimits, IndexOf, CubeFromBounds, Points.Raw, Points.NodeEncodes, Decoder.Valid, Lossless,
      Points.Listed, Box.Ordered, Box.Contains, OpenHierarchy, LoadedExactly, PagesNested;
    IndexAddsUp(index, source, CubeFromBounds(bounds).0, CubeFromBounds(bounds).1, budget);
    WrittenFileOpens(body, page, input);
  }

  /** The nodes of a query's selection, in the order their chunks are read. */
  lemma SelectedNodes(body: Body, page: Page, input: CopcInput, h: EntryMap, bounds: Box, q: PointQuery) returns (nodes: seq<LodNodeRange>)
    requires body.Valid() && body.Wrote(page, input) && LoadedExactly(h, body.Entries()) && Accepted(q) && bounds.Ordered()
    requires Keyed(h) && forall k :: k in h ==> h[k].Valid()
    ensures var found := Select(SortedValues(h), InfoOf(bounds), q);
      found.Ok? && AllRecorded(body, input.bytes, found.value, nodes) && DistinctEntryKeys(found.value)
    ensures forall n :: n in nodes <==> n in body.nodes && Wants(q, bounds, n)
  {
    hide Body.Wrote, Body.Valid, LoadedExactly, Body.Entries, Records, SortedValues, Selected, Selectable, Sort, Meets, AsksFor, LevelRange,
      LodAccepted, BoxAccepted, DistinctEntryKeys, CubeFromBounds, Matches, QueryAccepted, Box.Ordered;
    ValidSelectable(h, q);
    LevelsExactly(q.lod, 0);
    QueryAcceptedExactly(q);
    InfoValid(bounds);
    var found := Select(SortedValues(h), InfoOf(bounds), q).value;
    SelectMembers(SortedValues(h), InfoOf(bounds), q);
    SelectionDistinct(h, InfoOf(bounds), q);
    forall e ensures e in SortedValues(h) <==> e.key in h && h[e.key] == e {
      ValuesMembers(h, e);
    }
    forall e ensures Matches(e, InfoOf(bounds), q) <==> IsAskedFor(e, InfoOf(bounds), q) {
      MatchesExactly(e, InfoOf(bounds), q);
    }
    nodes := EntriesNodes(body, page, input, h, found);
    forall n ensures n in nodes <==> n in body.nodes && Wants(q, bounds, n) {
      if n in nodes {
        RecordedWanted(body, input.bytes, found, nodes, bounds, q, n);
      }
      if n in body.nodes && Wants(q, bounds, n) {
        var e := NodeEntryLoaded(body, page, input, h, n);
        assert IsAskedFor(e, InfoOf(bounds), q);
        RecordedNode(body, input.bytes, found, nodes, e, n);
      }
    }
  }

  lemma InfoValid(bounds: Box)
    requires bounds.Ordered()
    ensures InfoOf(bounds).Valid()
  {
    CubeCoversBounds(bounds);
  }

  lemma RecordedWanted(body: Body, bytes: seq<byte>, found: seq<Entry>, nodes: seq<LodNodeRange>, bounds: Box, q: PointQuery, n: LodNodeRange)
    requires AllRecorded(body, bytes, found, nodes) && n in nodes && forall e :: e in found ==> IsAskedFor(e, InfoOf(bounds), q)
    ensures n in body.nodes && Wants(q, bounds, n)
  {
    hide Meets, AsksFor, CubeFromBounds, Laz.Chunk, VoxelKey.Valid;
    var k :| 0 <= k < |nodes| && nodes[k] == n;
    assert Records(body, bytes, found[k], nodes[k]) && found[k] in found;
  }

  /** The entry with a node's key was recorded for that node. */
  lemma RecordedNode(body: Body, bytes: seq<byte>, found: seq<Entry>, nodes: seq<LodNodeRange>, e: Entry, n: LodNodeRange)
    requires AllRecorded(body, bytes, found, nodes) && e in found && n in body.nodes && e.key == n.key && body.Valid()
    ensures n in nodes
  {
    hide NeverEmpty, Laz.Chunk;
    var k :| 0 <= k < |found| && found[k] == e;
    assert Records(body, bytes, found[k], nodes[k]);
    var i :| 0 <= i < |body.nodes| && body.nodes[i] == n;
    var j :| 0 <= j < |body.nodes| && body.nodes[j] == nodes[k];
    assert i == j;
  }

  /** The chunks a query reads are those of the nodes it wants, each once. */
  lemma QueryChunks(body: Body, page: Page, input: CopcInput, index: LodIndex, source: seq<Vec3>, bounds: Box, budget: nat,
    q: PointQuery, dec: Decoder, points: Points) returns (nodes: seq<LodNodeRange>)
    requires Setting(body, page, input, index, source, bounds, budget, dec, points) && Accepted(q)
    ensures OpenHierarchy(input).Ok?
    ensures var found := Select(SortedValues(OpenHierarchy(input).value.hierarchy), InfoOf(bounds), q);
      found.Ok? && AllInBytes(input.bytes, found.value) && ChunksAt(input.bytes, found.value) == NodeChunks(body.laz, nodes)
    ensures AllCoded(body.laz, dec, points, nodes) && NoRepeat(nodes)
    ensures forall n :: n in nodes <==> n in index.nodes && Wants(q, bounds, n)
  {
    hide OpenHierarchy, SortedValues, Select, Setting, Wants, LoadedExactly, Body.Valid, Body.Wrote, Body.Entries, IndexOf, Ordered,
      CubeFromBounds, NodeChunks, ChunksAt, AllInBytes, SameCodec, Accepted, DistinctEntryKeys, AllRecorded, NoRepeat, Decoder.Valid, Box.Ordered, Box.Contains;
    SettingIndex(body, page, input, index, source, bounds, budget, dec, points);
    SettingBounds(body, page, input, index, source, bounds, budget, dec, points);
    OpenedKeys(input);
    var h := OpenHierarchy(input).value.hierarchy;
    nodes := SelectedNodes(body, page, input, h, bounds, q);
    ChunksOfNodes(body, input.bytes, Select(SortedValues(h), InfoOf(bounds), q).value, nodes);
    forall n | n in nodes ensures SameCodec(body.laz, dec, points, n) {
      NodeCoded(body, page, input, index, source, bounds, budget, dec, points, n);
    }
  }

  /** The points of the nodes a query wants, each once. */
  lemma WantedIds(body: Body, index: LodIndex, source: seq<Vec3>, bounds: Box, budget: nat, q: PointQuery, dec: Decoder, points: Points,
    nodes: seq<LodNodeRange>)
    requires IndexOf(index, source, CubeFromBounds(bounds).0, CubeFromBounds(bounds).1, budget) && Ordered(index, source, points)
    requires AllCoded(body.laz, dec, points, nodes) && NoRepeat(nodes) && dec.bounds == q.bounds
    requires forall n :: n in nodes <==> n in index.nodes && Wants(q, bounds, n)
    ensures NoRepeat(IdsOf(body.laz, dec, points, nodes))
    ensures forall i :: i in IdsOf(body.laz, dec, points, nodes) <==> Returned(index, bounds, points, q, i)
  {
    hide Encoded, RowAt, Decoder.Accepts, InBox, Wants, IndexOf, Ordered, CubeFromBounds, AllCoded, NoRepeat, ListApart, PointAt, InNodes,
      IdsOf;
    NodesListApart(points, index, source, CubeFromBounds(bounds).0, CubeFromBounds(bounds).1, budget, nodes);
    OrderOnce(index, source, CubeFromBounds(bounds).0, CubeFromBounds(bounds).1, budget);
    OrderIs(index, source, points);
    IdsOfOnce(body.laz, dec, points, nodes);
    IdsAreListed(body.laz, dec, points, nodes);
    forall i ensures InNodes(points, nodes, i) <==> exists n, p :: PointAt(index, n, p, i) && Wants(q, bounds, n) {
      InNodesAt(index, source, bounds, budget, points, q, nodes, i);
    }
    forall row ensures dec.Accepts(row) <==> InBox(q, Position(row)) {
      AcceptsInBox(dec, q, row);
    }
  }

  lemma AcceptsInBox(dec: Decoder, q: PointQuery, row: Row)
    requires dec.bounds == q.bounds
    ensures dec.Accepts(row) <==> InBox(q, Position(row))
  {
  }

  /** Reading the selection's chunks succeeds, and rows and columns are those of the points, in this order. */
  ghost predicate ReadsAs(bytes: seq<byte>, found: Result<seq<Entry>>, dec: Decoder, points: Points, ids: seq<nat>) {
    && dec.Valid() && found.Ok? && AllInBytes(bytes, found.value)
    && dec.AllDecode(ChunksAt(bytes, found.value))
    && (forall i :: i in ids ==> Encoded(points, i))
    && dec.AllRows(ChunksAt(bytes, found.value)) == RowsAt(points, ids)
    && forall dims :: BatchHoldsPoints(BatchOf(dec, dims, ChunksAt(bytes, found.value)), dims, points, ids)
  }

  lemma NodesRead(bytes: seq<byte>, found: Result<seq<Entry>>, laz: Laz, dec: Decoder, points: Points, nodes: seq<LodNodeRange>)
    requires dec.Valid() && AllCoded(laz, dec, points, nodes)
    requires found.Ok? && AllInBytes(bytes, found.value) && ChunksAt(bytes, found.value) == NodeChunks(laz, nodes)
    ensures ReadsAs(bytes, found, dec, points, IdsOf(laz, dec, points, nodes))
  {
    hide Encoded, RowsAt, Decoder.Valid, Decoder.AllDecode, Decoder.AllRows, NodeChunks, ChunksAt, AllInBytes, AllCoded, IdsOf;
    NodesRows(laz, dec, points, nodes);
    BatchPoints(dec, ChunksAt(bytes, found.value), points, IdsOf(laz, dec, points, nodes));
  }

  lemma BatchPoints(dec: Decoder, chunks: seq<Chunk>, points: Points, ids: seq<nat>)
    requires dec.Valid() && dec.AllDecode(chunks) && forall i :: i in ids ==> Encoded(points, i)
    requires dec.AllRows(chunks) == RowsAt(points, ids)
    ensures forall dims :: BatchHoldsPoints(BatchOf(dec, dims, chunks), dims, points, ids)
  {
    hide Encoded, Decoder.Valid, Decoder.AllDecode, Decoder.AllRows, RowsAt, BatchHoldsPoints;
    forall dims ensures BatchHoldsPoints(BatchOf(dec, dims, chunks), dims, points, ids) {
      PointBatch(dims, points, ids);
      RowsAtLength(points, ids);
    }
  }

  lemma RowsAtLength(points: Points, ids: seq<nat>)
    requires forall i :: i in ids ==> Encoded(points, i)
    ensures |RowsAt(points, ids)| == |ids|
  {
  }

  lemma DecoderIsValid(body: Body, page: Page, input: CopcInput, index: LodIndex, source: seq<Vec3>, bounds: Box, budget: nat,
    dec: Decoder, points: Points)
    requires Setting(body, page, input, index, source, bounds, budget, dec, points)
    ensures dec.Valid()
    ensures IndexOf(index, source, CubeFromBounds(bounds).0, CubeFromBounds(bounds).1, budget) && Ordered(index, source, points)
  {
    hide Body.Valid, Body.Wrote, WithinReaderLimits, Decoder.Valid, Ordered, IndexOf, CubeFromBounds, Box.Ordered, Box.Contains;
  }

  /**
   A column read of any query over a written file succeeds and returns, each once, exactly the rows of the points at the
   nodes the query selects whose rows are in its box.
   */
  lemma QueryReadsItsPoints(body: Body, page: Page, input: CopcInput, index: LodIndex, source: seq<Vec3>, bounds: Box, budget: nat,
    q: PointQuery, dec: Decoder, points: Points) returns (ids: seq<nat>)
    requires Setting(body, page, input, index, source, bounds, budget, dec, points)
    requires Accepted(q) && dec.bounds == q.bounds
    ensures OpenHierarchy(input).Ok?
    ensures NoRepeat(ids) && forall i :: i in ids <==> Returned(index, bounds, points, q, i)
    ensures ReadsAs(input.bytes, Select(SortedValues(OpenHierarchy(input).value.hierarchy), InfoOf(bounds), q), dec, points, ids)
  {
    hide OpenHierarchy, SortedValues, Select, Setting, Returned, ReadsAs, Wants, Decoder.Valid, IndexOf, Ordered, CubeFromBounds, NodeChunks,
      ChunksAt, AllInBytes, AllCoded, Accepted, NoRepeat, IdsOf;
    DecoderIsValid(body, page, input, index, source, bounds, budget, dec, points);
    var nodes := QueryChunks(body, page, input, index, source, bounds, budget, q, dec, points);
    var found := Select(SortedValues(OpenHierarchy(input).value.hierarchy), InfoOf(bounds), q);
    NodesRead(input.bytes, found, body.laz, dec, points, nodes);
    ids := IdsOf(body.laz, dec, points, nodes);
    WantedIds(body, index, source, bounds, budget, q, dec, points, nodes);
  }

  lemma OrderIs(index: LodIndex, source: seq<Vec3>, points: Points)
    requires Ordered(index, source, points)
    ensures points.order == index.order
  {
  }

  lemma InNodesAt(index: LodIndex, source: seq<Vec3>, bounds: Box, budget: nat, points: Points, q: PointQuery, nodes: seq<LodNodeRange>, i: nat)
    requires IndexOf(index, source, CubeFromBounds(bounds).0, CubeFromBounds(bounds).1, budget) && Ordered(index, source, points)
    requires forall n :: n in nodes <==> n in index.nodes && Wants(q, bounds, n)
    ensures InNodes(points, nodes, i) <==> exists n, p :: PointAt(index, n, p, i) && Wants(q, bounds, n)
  {
    hide IndexOf, Ordered, Wants, Lists;
    if n :| n in nodes && Lists(points, n, i) {
      ListsAtSlots(points, index, source, CubeFromBounds(bounds).0, CubeFromBounds(bounds).1, budget, n, i);
    }
    if n, p :| PointAt(index, n, p, i) && Wants(q, bounds, n) {
      ListsAtSlots(points, index, source, CubeFromBounds(bounds).0, CubeFromBounds(bounds).1, budget, n, i);
    }
  }

  // Points on the grid ------------------------------------------------------

  /** Point `i` is at a node of a level the query asks for. */
  ghost predicate AtLevel(index: LodIndex, q: PointQuery, i: nat) {
    exists n, p :: PointAt(index, n, p, i) && AsksFor(q.lod, n.key.level)
  }

  /** Source point `i` is in the query's box, at a level it asks for. */
  ghost predicate Asked(index: LodIndex, source: seq<Vec3>, q: PointQuery, i: nat) {
    i < |source| && AtLevel(index, q, i) && InBox(q, source[i])
  }

  /** A listed point encodes. */
  lemma SlotEncoded(laz: Laz, dec: Decoder, points: Points, n: LodNodeRange, p: nat)
    requires SameCodec(laz, dec, points, n) && points.First(n) <= p < points.First(n) + n.count
    ensures Encoded(points, points.order[p])
  {
    hide Points.Raw, Decoder.Valid, Lossless, Quantizes, Laz.Chunk;
    assert points.PointEncodes(points.PointOf(n, p - points.First(n)));
  }

  /** A source point is at one node, whose voxel holds it, and encodes. */
  lemma SourceHome(body: Body, page: Page, input: CopcInput, index: LodIndex, source: seq<Vec3>, bounds: Box, budget: nat,
    dec: Decoder, points: Points, i: nat) returns (n: LodNodeRange, p: int)
    requires Setting(body, page, input, index, source, bounds, budget, dec, points) && i < |source|
    ensures PointAt(index, n, p, i) && Encoded(points, i)
    ensures n.key.Valid() && VoxelBounds(n.key, InfoOf(bounds).center, InfoOf(bounds).halfsize).Contains(source[i])
    ensures forall m, q :: PointAt(index, m, q, i) ==> m == n
  {
    hide Setting, IndexOf, CubeFromBounds, Encoded, VoxelBounds, Box.Contains, SameCodec, Body.Valid, Body.Wrote, Box.Ordered, Ordered,
      LoadedExactly, OpenHierarchy, Body.Entries, Decoder.Valid, VoxelKey.Valid;
    SettingIndex(body, page, input, index, source, bounds, budget, dec, points);
    SettingBounds(body, page, input, index, source, bounds, budget, dec, points);
    n, p := PointHome(index, source, bounds, budget, i);
    EveryPointInOneNode(index, source, CubeFromBounds(bounds).0, CubeFromBounds(bounds).1, budget, i);
    NodeCoded(body, page, input, index, source, bounds, budget, dec, points, n);
    OrderIs(index, source, points);
    CodedListed(body.laz, dec, points, n);
    NodeStart(points, n);
    SlotEncoded(body.laz, dec, points, n, p);
  }

  lemma SettingBounds(body: Body, page: Page, input: CopcInput, index: LodIndex, source: seq<Vec3>, bounds: Box, budget: nat,
    dec: Decoder, points: Points)
    requires Setting(body, page, input, index, source, bounds, budget, dec, points)
    ensures bounds.Ordered() && forall i :: 0 <= i < |source| ==> bounds.Contains(source[i])
  {
    hide Body.Valid, Body.Wrote, WithinReaderLimits, IndexOf, Transcodes, Ordered;
  }

  lemma RowInBox(index: LodIndex, source: seq<Vec3>, points: Points, q: PointQuery, i: nat)
    requires Ordered(index, source, points) && i < |source| && Encoded(points, i)
    requires q.bounds.Some? ==> OnGrid(points.fields[i], points.transform)
    ensures InBox(q, Position(RowAt(points, i))) <==> InBox(q, source[i])
  {
    hide RowAt, OnGrid, Encoded, Spans;
    if q.bounds.Some? {
      GridPosition(points, i);
    }
  }

  /** A source point in a query's box comes back exactly when its level is asked for and its row is still in the box. */
  lemma BoxPointReturned(body: Body, page: Page, input: CopcInput, index: LodIndex, source: seq<Vec3>, bounds: Box, budget: nat,
    q: PointQuery, dec: Decoder, points: Points, i: nat)
    requires Setting(body, page, input, index, source, bounds, budget, dec, points)
    requires dec.bounds == q.bounds && i < |source| && InBox(q, source[i])
    ensures Encoded(points, i)
    ensures Returned(index, bounds, points, q, i) <==> AtLevel(index, q, i) && InBox(q, Position(RowAt(points, i)))
  {
    hide Setting, IndexOf, CubeFromBounds, Encoded, VoxelBounds, Box.Contains, Body.Valid, Body.Wrote, Ordered, RowAt, PointAt,
      LoadedExactly, OpenHierarchy, Body.Entries, Decoder.Valid, AsksFor, InBox, VoxelKey.Valid, Meets;
    var n, p := SourceHome(body, page, input, index, source, bounds, budget, dec, points, i);
    PointMeets(n.key, InfoOf(bounds), q, source[i]);
    if AtLevel(index, q, i) {
      assert PointAt(index, n, p, i) && Wants(q, bounds, n);
    }
  }

  /** On the grid a query returns exactly the points of its levels that are in its box. */
  lemma GridReturned(body: Body, page: Page, input: CopcInput, index: LodIndex, source: seq<Vec3>, bounds: Box, budget: nat,
    q: PointQuery, dec: Decoder, points: Points, i: nat)
    requires Setting(body, page, input, index, source, bounds, budget, dec, points)
    requires dec.bounds == q.bounds && i < |source|
    requires q.bounds.Some? ==> OnGrid(points.fields[i], points.transform)
    ensures Returned(index, bounds, points, q, i) <==> Asked(index, source, q, i)
  {
    hide Setting, IndexOf, CubeFromBounds, Encoded, VoxelBounds, Body.Valid, Body.Wrote, Ordered, RowAt, OnGrid, PointAt,
      Decoder.Valid, AsksFor, Decoder.Accepts, InBox, AtLevel;
    DecoderIsValid(body, page, input, index, source, bounds, budget, dec, points);
    var n, p := SourceHome(body, page, input, index, source, bounds, budget, dec, points, i);
    RowInBox(index, source, points, q, i);
    if InBox(q, source[i]) {
      BoxPointReturned(body, page, input, index, source, bounds, budget, q, dec, points, i);
    }
  }

  /** Off the grid quantization can carry a point out of a box that holds it. */
  lemma OffGridPointLeavesBox(f: PointFields, format: Format) returns (points: Points, box: Box)
    requires f.x == 0.4 && f.y == 0.0 && f.z == 0.0 && |f.extraBytes| == format.extraLen
    ensures points.fields == [f] && Encoded(points, 0) && box.Contains(Vec3(f.x, f.y, f.z))
    ensures !box.Contains(Vec3(RowAt(points, 0).x, RowAt(points, 0).y, RowAt(points, 0).z))
  {
    hide RowAt;
    var unit := Axis(1.0, 0.0);
    points := Points([f], [0], Transform(unit, unit, unit), format);
    box := Box(Vec3(0.25, 0.0, 0.0), Vec3(0.5, 0.0, 0.0));
    assert QuantizeAxis(0.4, unit) == Ok(0);
    RowPosition(points, 0);
  }

  lemma PointMeets(key: VoxelKey, info: CopcInfo, q: PointQuery, at: Vec3)
    requires key.Valid() && VoxelBounds(key, info.center, info.halfsize).Contains(at) && InBox(q, at)
    ensures Meets(key, info, q.bounds)
  {
    hide VoxelBounds;
    if q.bounds.Some? {
      assert Spans(VoxelBounds(key, info.center, info.halfsize), at) && Spans(q.bounds.value, at);
    }
  }

  /**
   The whole way round. A query over a written file whose points are on the grid (or a query without a box, whatever the
   points) reads back exactly the points of its levels inside its box, each once, and no other row.
   */
  lemma QueryReadsExactlyTheBox(body: Body, page: Page, input: CopcInput, index: LodIndex, source: seq<Vec3>, bounds: Box, budget: nat,
    q: PointQuery, dec: Decoder, points: Points) returns (ids: seq<nat>)
    requires Setting(body, page, input, index, source, bounds, budget, dec, points)
    requires Accepted(q) && dec.bounds == q.bounds
    requires q.bounds.Some? ==> forall f :: f in points.fields ==> OnGrid(f, points.transform)
    ensures OpenHierarchy(input).Ok?
    ensures NoRepeat(ids) && forall i :: i in ids <==> Asked(index, source, q, i)
    ensures ReadsAs(input.bytes, Select(SortedValues(OpenHierarchy(input).value.hierarchy), InfoOf(bounds), q), dec, points, ids)
  {
    hide Setting, OnGrid, InBox, AtLevel, OpenHierarchy, NoRepeat, Select, SortedValues, ReadsAs, Accepted, Returned, CubeFromBounds;
    ids := QueryReadsItsPoints(body, page, input, index, source, bounds, budget, q, dec, points);
    forall i: nat ensures Returned(index, bounds, points, q, i) <==> Asked(index, source, q, i) {
      if i < |source| {
        FieldsInSource(body, page, input, index, source, bounds, budget, dec, points, i);
        GridReturned(body, page, input, index, source, bounds, budget, q, dec, points, i);
      } else {
        ReturnedInSource(body, page, input, index, source, bounds, budget, q, dec, points, i);
      }
    }
  }

  lemma FieldsInSource(body: Body, page: Page, input: CopcInput, index: LodIndex, source: seq<Vec3>, bounds: Box, budget: nat,
    dec: Decoder, points: Points, i: nat)
    requires Setting(body, page, input, index, source, bounds, budget, dec, points) && i < |source|
    ensures i < |points.fields| && points.fields[i] in points.fields
  {
    hide Body.Valid, Body.Wrote, WithinReaderLimits, Indexed, Transcodes;
  }

  lemma ReturnedInSource(body: Body, page: Page, input: CopcInput, index: LodIndex, source: seq<Vec3>, bounds: Box, budget: nat,
    q: PointQuery, dec: Decoder, points: Points, i: nat)
    requires Setting(body, page, input, index, source, bounds, budget, dec, points)
    ensures Returned(index, bounds, points, q, i) ==> i < |source|
  {
    hide Body.Valid, Body.Wrote, WithinReaderLimits, Indexed, Transcodes, RowAt, Decoder.Accepts, Wants, PointAt;
  }
}
