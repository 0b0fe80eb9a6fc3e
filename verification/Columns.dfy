/** Decoding chunks into columns, one pass or batch by batch, and into rows (copc-reader/src/points.rs). */
module Columns {
  import opened Core
  import opened Bounds
  import opened PointRecord

  datatype Dimension =
    | X | Y | Z | Intensity | ReturnNumber | NumberOfReturns | Classification | ScanDirectionFlag | EdgeOfFlightLine
    | ScanAngle | UserData | PointSourceId | Synthetic | KeyPoint | Withheld | Overlap | ScanChannel | GpsTime
    | Red | Green | Blue | ExtraBytes

  datatype Cell = Real(r: real) | Word(w: nat) | Flag(b: bool)

  datatype Column = Column(dim: Dimension, cells: seq<Cell>)

  /** `append_column`: what one row adds to a column. */
  function Cells(dim: Dimension, row: Row): seq<Cell> {
    match dim
    case X => [Real(row.x)]
    case Y => [Real(row.y)]
    case Z => [Real(row.z)]
    case Intensity => [Word(row.intensity)]
    case ReturnNumber => [Word(row.returnNumber)]
    case NumberOfReturns => [Word(row.numberOfReturns)]
    case Classification => [Word(row.classification)]
    case ScanDirectionFlag => [Flag(row.scanDirectionFlag)]
    case EdgeOfFlightLine => [Flag(row.edgeOfFlightLine)]
    case ScanAngle => [Real(row.scanAngle)]
    case UserData => [Word(row.userData)]
    case PointSourceId => [Word(row.pointSourceId)]
    case Synthetic => [Flag(row.synthetic)]
    case KeyPoint => [Flag(row.keyPoint)]
    case Withheld => [Flag(row.withheld)]
    case Overlap => [Flag(row.overlap)]
    case ScanChannel => [Word(row.scanChannel)]
    case GpsTime => [Word(row.gpsTime)]
    case Red => [Word(row.red)]
    case Green => [Word(row.green)]
    case Blue => [Word(row.blue)]
    case ExtraBytes => seq(|row.extraBytes|, i requires 0 <= i < |row.extraBytes| => Word(row.extraBytes[i]))
  }

  /** Cells per point. */
  function CellWidth(dim: Dimension, format: Format): nat {
    if dim == ExtraBytes then format.extraLen else 1
  }

  /** A chunk's bytes and the point count its entry gives. */
  datatype Chunk = Chunk(bytes: seq<byte>, count: nat)

  /** `ChunkColumnDecoder`; `record` is the foreign decompressor, record by record. */
  datatype Decoder = Decoder(format: Format, transform: Transform, bounds: Option<Box>, record: (seq<byte>, nat) -> Result<seq<byte>>)
  {
    /** Records have the format's length. */
    ghost predicate Valid() {
      forall bytes, i :: record(bytes, i).Ok? ==> |record(bytes, i).value| == format.Len()
    }

    function RowOf(buf: seq<byte>): Row
      requires |buf| == format.Len()
    {
      DecodeRow(buf, transform, format)
    }

    /** The bounds filter. */
    predicate Accepts(row: Row) {
      bounds.Some? ==> bounds.value.Contains(Vec3(row.x, row.y, row.z))
    }

    /** The first `n` records of a chunk decompress. */
    ghost predicate Decodes(bytes: seq<byte>, n: nat) {
      forall i :: 0 <= i < n ==> record(bytes, i).Ok?
    }

    /** The accepted rows among the first `n` points of a chunk. */
    ghost function Rows(bytes: seq<byte>, n: nat): (rows: seq<Row>)
      requires Valid() && Decodes(bytes, n)
      ensures |rows| <= n && (bounds.None? ==> |rows| == n)
    {
      if n == 0 then []
      else
        var row := RowOf(record(bytes, n - 1).value);
        Rows(bytes, n - 1) + (if Accepts(row) then [row] else [])
    }

    ghost predicate AllDecode(chunks: seq<Chunk>) {
      forall c :: c in chunks ==> Decodes(c.bytes, c.count)
    }

    /** The accepted rows of all chunks, in order. */
    ghost function AllRows(chunks: seq<Chunk>): seq<Row>
      requires Valid() && AllDecode(chunks)
    {
      if chunks == [] then []
      else
        var n := |chunks| - 1;
        AllRows(chunks[..n]) + Rows(chunks[n].bytes, chunks[n].count)
    }
  }

  // Filled columns ----------------------------------------------------------

  ghost function ColumnCells(dim: Dimension, rows: seq<Row>): seq<Cell> {
    if rows == [] then [] else ColumnCells(dim, rows[..|rows| - 1]) + Cells(dim, rows[|rows| - 1])
  }

  /** The columns holding exactly these rows. */
  ghost function Filled(dims: seq<Dimension>, rows: seq<Row>): (columns: seq<Column>)
    ensures |columns| == |dims|
    ensures forall i :: 0 <= i < |dims| ==> columns[i] == Column(dims[i], ColumnCells(dims[i], rows))
  {
    seq(|dims|, i requires 0 <= i < |dims| => Column(dims[i], ColumnCells(dims[i], rows)))
  }

  lemma {:induction false} ColumnCellsAppend(dim: Dimension, a: seq<Row>, b: seq<Row>)
    ensures ColumnCells(dim, a + b) == ColumnCells(dim, a) + ColumnCells(dim, b)
  {
    hide Cells;
    if b == [] {
      assert a + b == a;
    } else {
      var n := |b| - 1;
      ColumnCellsAppend(dim, a, b[..n]);
      assert (a + b)[..|a + b| - 1] == a + b[..n];
    }
  }

  lemma ColumnCellsOne(dim: Dimension, rows: seq<Row>, row: Row)
    ensures ColumnCells(dim, rows + [row]) == ColumnCells(dim, rows) + Cells(dim, row)
  {
    hide Cells;
    assert (rows + [row])[..|rows|] == rows;
  }

  lemma OneMoreRow(dec: Decoder, bytes: seq<byte>, n: nat)
    requires dec.Valid() && dec.Decodes(bytes, n + 1)
    ensures dec.Rows(bytes, 0) == []
    ensures var row := dec.RowOf(dec.record(bytes, n).value);
      dec.Rows(bytes, n + 1) == if dec.Accepts(row) then dec.Rows(bytes, n) + [row] else dec.Rows(bytes, n)
  {
    hide DecodeRow;
  }

  lemma NoCells(dim: Dimension)
    ensures ColumnCells(dim, []) == []
  {
  }

  /** Every column of a filled batch holds the same number of points. */
  lemma {:induction false} ColumnsHoldEqualPoints(dec: Decoder, dim: Dimension, bytes: seq<byte>, n: nat)
    requires dec.Valid() && dec.Decodes(bytes, n)
    ensures |ColumnCells(dim, dec.Rows(bytes, n))| == CellWidth(dim, dec.format) * |dec.Rows(bytes, n)|
  {
    hide Cells, DecodeRow, CellWidth, ColumnCells, Decoder.Rows;
    NoCells(dim);
    if n > 0 {
      ColumnsHoldEqualPoints(dec, dim, bytes, n - 1);
      OneMoreRow(dec, bytes, n - 1);
      var row := dec.RowOf(dec.record(bytes, n - 1).value);
      RowCells(dec, dim, dec.record(bytes, n - 1).value);
      if dec.Accepts(row) {
        ColumnCellsOne(dim, dec.Rows(bytes, n - 1), row);
        OneMorePoint(CellWidth(dim, dec.format), |dec.Rows(bytes, n - 1)|);
      }
    } else {
      NoRows(dec, bytes);
    }
  }

  lemma NoRows(dec: Decoder, bytes: seq<byte>)
    requires dec.Valid()
    ensures dec.Decodes(bytes, 0) && dec.Rows(bytes, 0) == []
  {
  }

  lemma OneMorePoint(w: nat, n: nat)
    ensures w * (n + 1) == w * n + w
  {
  }

  lemma RowCells(dec: Decoder, dim: Dimension, buf: seq<byte>)
    requires |buf| == dec.format.Len()
    ensures |Cells(dim, dec.RowOf(buf))| == CellWidth(dim, dec.format)
  {
  }

  /** The check made on a finished batch never fails: each column has one cell group per accepted point. */
  lemma {:induction false} BatchIsEven(dec: Decoder, dim: Dimension, chunks: seq<Chunk>)
    requires dec.Valid() && dec.AllDecode(chunks)
    ensures |ColumnCells(dim, dec.AllRows(chunks))| == CellWidth(dim, dec.format) * |dec.AllRows(chunks)|
  {
    hide CellWidth, Cells, DecodeRow, ColumnCells, Decoder.Rows, Decoder.Decodes;
    NoCells(dim);
    if chunks != [] {
      var n := |chunks| - 1;
      BatchIsEven(dec, dim, chunks[..n]);
      var a, b := dec.AllRows(chunks[..n]), dec.Rows(chunks[n].bytes, chunks[n].count);
      ColumnsHoldEqualPoints(dec, dim, chunks[n].bytes, chunks[n].count);
      ColumnCellsAppend(dim, a, b);
      Distribute(CellWidth(dim, dec.format), |a|, |b|);
    }
  }

  lemma Distribute(w: nat, a: nat, b: nat)
    ensures w * (a + b) == w * a + w * b
  {
  }

  // The builders ------------------------------------------------------------

  class ColumnBuilders {
    var columns: seq<Column>

    constructor (dims: seq<Dimension>)
      ensures columns == Filled(dims, [])
    {
      columns := seq(|dims|, i requires 0 <= i < |dims| => Column(dims[i], []));
    }

    /** `append_columns` */
    method AppendRow(row: Row, ghost dims: seq<Dimension>, ghost rows: seq<Row>)
      requires columns == Filled(dims, rows)
      modifies this
      ensures columns == Filled(dims, rows + [row])
    {
      hide Cells;
      for i := 0 to |columns|
        invariant |columns| == |dims|
        invariant forall j :: i <= j < |dims| ==> columns[j] == Column(dims[j], ColumnCells(dims[j], rows))
        invariant forall j :: 0 <= j < i ==> columns[j] == Column(dims[j], ColumnCells(dims[j], rows + [row]))
      {
        ColumnCellsOne(dims[i], rows, row);
        columns := columns[i := Column(columns[i].dim, columns[i].cells + Cells(columns[i].dim, row))];
      }
    }

    /** `decode_into`: appends the accepted points of one chunk. */
    method DecodeInto(dec: Decoder, chunk: Chunk, ghost dims: seq<Dimension>, ghost rows: seq<Row>) returns (r: Result<nat>)
      requires dec.Valid() && columns == Filled(dims, rows)
      modifies this
      ensures r.Ok? <==> dec.Decodes(chunk.bytes, chunk.count)
      ensures r.Ok? ==> r.value == |dec.Rows(chunk.bytes, chunk.count)|
      ensures r.Ok? ==> columns == Filled(dims, rows + dec.Rows(chunk.bytes, chunk.count))
    {
      hide Filled, DecodeRow, Decoder.Rows;
      var accepted := 0;
      NoRows(dec, chunk.bytes);
      assert rows + dec.Rows(chunk.bytes, 0) == rows;
      for decoded := 0 to chunk.count
        invariant dec.Decodes(chunk.bytes, decoded) && accepted == |dec.Rows(chunk.bytes, decoded)|
        invariant columns == Filled(dims, rows + dec.Rows(chunk.bytes, decoded))
      {
        var buf := dec.record(chunk.bytes, decoded);
        if buf.Err? {
          return Err(buf.error);
        }
        OneMoreRow(dec, chunk.bytes, decoded);
        ghost var before := rows + dec.Rows(chunk.bytes, decoded);
        var row := dec.RowOf(buf.value);
        if dec.bounds.Some? && !dec.bounds.value.Contains(Vec3(row.x, row.y, row.z)) {
          assert before == rows + dec.Rows(chunk.bytes, decoded + 1);
          continue;
        }
        AppendRow(row, dims, before);
        assert before + [row] == rows + dec.Rows(chunk.bytes, decoded + 1);
        accepted := accepted + 1;
      }
      return Ok(accepted);
    }

    /** `merge_columns`: appends another chunk's columns, column by column. */
    method MergeColumns(src: seq<Column>) returns (r: Result<()>)
      modifies this
      ensures r.Ok? <==>
        |src| == |old(columns)| && forall i :: 0 <= i < |src| ==> src[i].dim == old(columns)[i].dim
      ensures r.Ok? ==> |columns| == |src| && forall i :: 0 <= i < |src| ==>
        columns[i] == Column(src[i].dim, old(columns)[i].cells + src[i].cells)
    {
      if |columns| != |src| {
        return Err(InvalidData);
      }
      for i := 0 to |src|
        invariant |columns| == |src| == |old(columns)|
        invariant forall j :: i <= j < |src| ==> columns[j] == old(columns)[j]
        invariant forall j :: 0 <= j < i ==> src[j].dim == old(columns)[j].dim
        invariant forall j :: 0 <= j < i ==> columns[j] == Column(src[j].dim, old(columns)[j].cells + src[j].cells)
      {
        if columns[i].dim != src[i].dim {
          return Err(InvalidData);
        }
        columns := columns[i := Column(columns[i].dim, columns[i].cells + src[i].cells)];
      }
      return Ok(());
    }

    /** Merging a chunk decoded on its own appends its rows. */
    method MergePart(src: seq<Column>, ghost dims: seq<Dimension>, ghost before: seq<Row>, ghost rows: seq<Row>)
      requires columns == Filled(dims, before) && src == Filled(dims, rows)
      modifies this
      ensures columns == Filled(dims, before + rows)
    {
      hide ColumnCells;
      var merged := MergeColumns(src);
      assert merged.Ok?;
      MergeIsAppend(dims, before, rows, columns);
    }
  }

  // Whole reads -------------------------------------------------------------

  datatype Batch = Batch(len: nat, columns: seq<Column>)

  /** The batch any way of reading the chunks must produce. */
  ghost function BatchOf(dec: Decoder, dims: seq<Dimension>, chunks: seq<Chunk>): Batch
    requires dec.Valid() && dec.AllDecode(chunks)
  {
    Batch(|dec.AllRows(chunks)|, Filled(dims, dec.AllRows(chunks)))
  }

  lemma OneMoreChunk(dec: Decoder, chunks: seq<Chunk>, i: nat)
    requires dec.Valid() && i < |chunks| && dec.AllDecode(chunks[..i])
    ensures dec.AllDecode(chunks[..i + 1]) <==> dec.Decodes(chunks[i].bytes, chunks[i].count)
    ensures dec.AllDecode(chunks[..i + 1]) ==>
      dec.AllRows(chunks[..i + 1]) == dec.AllRows(chunks[..i]) + dec.Rows(chunks[i].bytes, chunks[i].count)
  {
    hide Decoder.Decodes, Decoder.Rows;
    assert chunks[..i + 1][..i] == chunks[..i];
    assert chunks[i] in chunks[..i + 1];
    assert forall c :: c in chunks[..i + 1] ==> c in chunks[..i] || c == chunks[i];
  }

  lemma NoChunks(dec: Decoder)
    requires dec.Valid()
    ensures dec.AllDecode([]) && dec.AllRows([]) == []
  {
  }

  lemma AllDecodeEach(dec: Decoder, chunks: seq<Chunk>, i: nat)
    requires i < |chunks|
    ensures dec.AllDecode(chunks) ==> dec.Decodes(chunks[i].bytes, chunks[i].count)
  {
    assert chunks[i] in chunks;
  }

  /** The sequential read: every chunk decodes straight into the one set of columns. */
  method ReadColumns(dec: Decoder, dims: seq<Dimension>, chunks: seq<Chunk>) returns (r: Result<Batch>)
    requires dec.Valid()
    ensures r.Ok? <==> dec.AllDecode(chunks)
    ensures r.Ok? ==> r.value == BatchOf(dec, dims, chunks)
  {
    hide Filled, Decoder.Decodes, Decoder.Rows, Decoder.AllRows, Decoder.Valid;
    var builders := new ColumnBuilders(dims);
    var accepted := 0;
    assert chunks[..0] == [];
    NoChunks(dec);
    for i := 0 to |chunks|
      invariant dec.AllDecode(chunks[..i]) && accepted == |dec.AllRows(chunks[..i])|
      invariant builders.columns == Filled(dims, dec.AllRows(chunks[..i]))
    {
      OneMoreChunk(dec, chunks, i);
      assert chunks[i] in chunks;
      var decoded := builders.DecodeInto(dec, chunks[i], dims, dec.AllRows(chunks[..i]));
      if decoded.Err? {
        return Err(decoded.error);
      }
      accepted := accepted + decoded.value;
    }
    assert chunks[..|chunks|] == chunks;
    return Ok(Batch(accepted, builders.columns));
  }

  lemma MergeIsAppend(dims: seq<Dimension>, a: seq<Row>, b: seq<Row>, merged: seq<Column>)
    requires |merged| == |dims|
    requires forall i :: 0 <= i < |dims| ==> merged[i] == Column(dims[i], Filled(dims, a)[i].cells + Filled(dims, b)[i].cells)
    ensures merged == Filled(dims, a + b)
  {
    forall i | 0 <= i < |dims| ensures merged[i] == Filled(dims, a + b)[i] {
      ColumnCellsAppend(dims[i], a, b);
    }
  }

  /** The parallel read's order of work: each chunk of a batch decodes on its own, then the batch merges in order. */
  method ReadColumnsInBatches(dec: Decoder, dims: seq<Dimension>, chunks: seq<Chunk>, batchSize: nat) returns (r: Result<Batch>)
    requires dec.Valid() && batchSize > 0
    ensures r.Ok? <==> dec.AllDecode(chunks)
    ensures r.Ok? ==> r.value == BatchOf(dec, dims, chunks)
  {
    hide Filled, Decoder.Decodes, Decoder.Rows, Decoder.AllRows, Decoder.AllDecode, Decoder.Valid;
    var builders := new ColumnBuilders(dims);
    var accepted := 0;
    assert chunks[..0] == [];
    NoChunks(dec);
    var lo := 0;
    while lo < |chunks|
      invariant lo <= |chunks|
      invariant dec.AllDecode(chunks[..lo]) && accepted == |dec.AllRows(chunks[..lo])|
      invariant builders.columns == Filled(dims, dec.AllRows(chunks[..lo]))
    {
      var hi := if |chunks| - lo < batchSize then |chunks| else lo + batchSize;
      var decoded := DecodeBatch(dec, dims, chunks[lo..hi]);
      for i := lo to hi
        invariant dec.AllDecode(chunks[..i]) && accepted == |dec.AllRows(chunks[..i])|
        invariant builders.columns == Filled(dims, dec.AllRows(chunks[..i]))
      {
        OneMoreChunk(dec, chunks, i);
        assert chunks[lo..hi][i - lo] == chunks[i];
        AllDecodeEach(dec, chunks, i);
        if decoded[i - lo].Err? {
          return Err(decoded[i - lo].error);
        }
        var part := decoded[i - lo].value;
        builders.MergePart(part.columns, dims, dec.AllRows(chunks[..i]), dec.Rows(chunks[i].bytes, chunks[i].count));
        accepted := accepted + part.len;
      }
      lo := hi;
    }
    assert chunks[..|chunks|] == chunks;
    return Ok(Batch(accepted, builders.columns));
  }

  /** Each chunk of a batch on its own, whatever happens to the others. */
  method DecodeBatch(dec: Decoder, dims: seq<Dimension>, batch: seq<Chunk>) returns (parts: seq<Result<Batch>>)
    requires dec.Valid()
    ensures |parts| == |batch|
    ensures forall i :: 0 <= i < |batch| ==> (parts[i].Ok? <==> dec.Decodes(batch[i].bytes, batch[i].count))
    ensures forall i :: 0 <= i < |batch| && parts[i].Ok? ==>
      var rows := dec.Rows(batch[i].bytes, batch[i].count); parts[i].value == Batch(|rows|, Filled(dims, rows))
  {
    hide Filled, Decoder.Decodes, Decoder.Rows;
    parts := [];
    for i := 0 to |batch|
      invariant |parts| == i
      invariant forall j :: 0 <= j < i ==> (parts[j].Ok? <==> dec.Decodes(batch[j].bytes, batch[j].count))
      invariant forall j :: 0 <= j < i && parts[j].Ok? ==>
        var rows := dec.Rows(batch[j].bytes, batch[j].count); parts[j].value == Batch(|rows|, Filled(dims, rows))
    {
      var builders := new ColumnBuilders(dims);
      var accepted := builders.DecodeInto(dec, batch[i], dims, []);
      if accepted.Ok? {
        ghost var rows := dec.Rows(batch[i].bytes, batch[i].count);
        assert [] + rows == rows;
        parts := parts + [Ok(Batch(accepted.value, builders.columns))];
      } else {
        parts := parts + [Err(accepted.error)];
      }
    }
  }
}
