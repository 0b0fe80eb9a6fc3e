/** What the columns of a read hold, in terms of the record bytes alone (copc-reader/src/points.rs). */
module ColumnContents {
  import opened Core
  import opened Codec
  import opened Words
  import opened Bounds
  import opened PointRecord
  import opened Layouts
  import opened Columns

  // The records a read keeps ------------------------------------------------

  /** The record's coordinates, scaled and shifted, are inside the box. */
  ghost predicate RecordInBox(b: seq<byte>, t: Transform, bounds: Option<Box>)
    requires |b| >= 30
  {
    match bounds
    case None => true
    case Some(box) =>
      && box.min.x <= t.x.scale * Int32(b, 0) as real + t.x.offset <= box.max.x
      && box.min.y <= t.y.scale * Int32(b, 4) as real + t.y.offset <= box.max.y
      && box.min.z <= t.z.scale * Int32(b, 8) as real + t.z.offset <= box.max.z
  }

  /** The records among the first `n` of a chunk that are in the box, in order. */
  ghost function Kept(dec: Decoder, bytes: seq<byte>, n: nat): (bufs: seq<seq<byte>>)
    requires dec.Valid() && dec.Decodes(bytes, n)
    ensures forall b :: b in bufs ==> |b| == dec.format.Len()
  {
    if n == 0 then []
    else
      var b := dec.record(bytes, n - 1).value;
      Kept(dec, bytes, n - 1) + (if RecordInBox(b, dec.transform, dec.bounds) then [b] else [])
  }

  ghost function KeptOf(dec: Decoder, chunks: seq<Chunk>): (bufs: seq<seq<byte>>)
    requires dec.Valid() && dec.AllDecode(chunks)
    ensures forall b :: b in bufs ==> |b| == dec.format.Len()
  {
    if chunks == [] then []
    else
      var n := |chunks| - 1;
      KeptOf(dec, chunks[..n]) + Kept(dec, chunks[n].bytes, chunks[n].count)
  }

  /** The rows are those of the records. */
  ghost predicate RowsOf(dec: Decoder, bufs: seq<seq<byte>>, rows: seq<Row>) {
    && |rows| == |bufs|
    && forall j :: 0 <= j < |bufs| ==> |bufs[j]| == dec.format.Len() && rows[j] == dec.RowOf(bufs[j])
  }

  lemma AcceptsExactly(dec: Decoder, b: seq<byte>)
    requires |b| == dec.format.Len()
    ensures dec.Accepts(dec.RowOf(b)) <==> RecordInBox(b, dec.transform, dec.bounds)
  {
    hide DecodeRow, FlagsMean, ValuesMean, Int32;
    RowLayout(b, dec.transform, dec.format);
  }

  lemma {:induction false} KeptRows(dec: Decoder, bytes: seq<byte>, n: nat)
    requires dec.Valid() && dec.Decodes(bytes, n)
    ensures RowsOf(dec, Kept(dec, bytes, n), dec.Rows(bytes, n))
  {
    hide Decoder.Accepts, RecordInBox, Decoder.RowOf;
    if n > 0 {
      KeptRows(dec, bytes, n - 1);
      AcceptsExactly(dec, dec.record(bytes, n - 1).value);
    }
  }

  lemma RowsOfAppend(dec: Decoder, a: seq<seq<byte>>, b: seq<seq<byte>>, aRows: seq<Row>, bRows: seq<Row>)
    requires RowsOf(dec, a, aRows) && RowsOf(dec, b, bRows)
    ensures RowsOf(dec, a + b, aRows + bRows)
  {
    hide Decoder.RowOf;
  }

  lemma {:induction false} KeptAllRows(dec: Decoder, chunks: seq<Chunk>)
    requires dec.Valid() && dec.AllDecode(chunks)
    ensures RowsOf(dec, KeptOf(dec, chunks), dec.AllRows(chunks))
  {
    hide Decoder.Rows, Kept, Decoder.RowOf, Decoder.Decodes, Decoder.Valid;
    if chunks != [] {
      var n := |chunks| - 1;
      KeptAllRows(dec, chunks[..n]);
      AllDecodeEach(dec, chunks, n);
      KeptRows(dec, chunks[n].bytes, chunks[n].count);
      RowsOfAppend(dec, KeptOf(dec, chunks[..n]), Kept(dec, chunks[n].bytes, chunks[n].count), dec.AllRows(chunks[..n]),
        dec.Rows(chunks[n].bytes, chunks[n].count));
    }
  }

  // One cell ----------------------------------------------------------------

  /** Place `j` of a column holds the row's field of that name. */
  ghost predicate HoldsField(dim: Dimension, cells: seq<Cell>, j: nat, row: Row) {
    if dim == ExtraBytes then
      var w := |row.extraBytes|;
      w * j + w <= |cells| && forall m :: w * j <= m < w * j + w ==> cells[m] == Word(row.extraBytes[m - w * j])
    else
      j < |cells| &&
      match dim
      case X => cells[j] == Real(row.x)
      case Y => cells[j] == Real(row.y)
      case Z => cells[j] == Real(row.z)
      case Intensity => cells[j] == Word(row.intensity)
      case ReturnNumber => cells[j] == Word(row.returnNumber)
      case NumberOfReturns => cells[j] == Word(row.numberOfReturns)
      case Classification => cells[j] == Word(row.classification)
      case ScanDirectionFlag => cells[j] == Flag(row.scanDirectionFlag)
      case EdgeOfFlightLine => cells[j] == Flag(row.edgeOfFlightLine)
      case ScanAngle => cells[j] == Real(row.scanAngle)
      case UserData => cells[j] == Word(row.userData)
      case PointSourceId => cells[j] == Word(row.pointSourceId)
      case Synthetic => cells[j] == Flag(row.synthetic)
      case KeyPoint => cells[j] == Flag(row.keyPoint)
      case Withheld => cells[j] == Flag(row.withheld)
      case Overlap => cells[j] == Flag(row.overlap)
      case ScanChannel => cells[j] == Word(row.scanChannel)
      case GpsTime => cells[j] == Word(row.gpsTime)
      case Red => cells[j] == Word(row.red)
      case Green => cells[j] == Word(row.green)
      case Blue => cells[j] == Word(row.blue)
      case ExtraBytes => true
  }

  /** All rows have the format's extra bytes. */
  ghost predicate Even(rows: seq<Row>, format: Format) {
    forall j :: 0 <= j < |rows| ==> |rows[j].extraBytes| == format.extraLen
  }

  lemma CellsEven(dim: Dimension, row: Row, format: Format)
    requires |row.extraBytes| == format.extraLen
    ensures |Cells(dim, row)| == CellWidth(dim, format)
  {
  }

  lemma {:induction false} ColumnCellsSize(dim: Dimension, rows: seq<Row>, format: Format)
    requires Even(rows, format)
    ensures |ColumnCells(dim, rows)| == CellWidth(dim, format) * |rows|
  {
    hide Cells, CellWidth;
    if rows != [] {
      var n := |rows| - 1;
      ColumnCellsSize(dim, rows[..n], format);
      CellsEven(dim, rows[n], format);
      OneMorePoint(CellWidth(dim, format), n);
    }
  }

  /** The cells of one row are together, after those of the rows before it. */
  lemma ColumnCellsAt(dim: Dimension, rows: seq<Row>, format: Format, j: nat)
    requires Even(rows, format) && j < |rows|
    ensures var w := CellWidth(dim, format);
      w * j + w <= |ColumnCells(dim, rows)| && ColumnCells(dim, rows)[w * j..w * j + w] == Cells(dim, rows[j])
  {
    hide Cells, CellWidth, ColumnCells;
    var w := CellWidth(dim, format);
    var before, after := rows[..j], rows[j + 1..];
    ColumnCellsSize(dim, before, format);
    CellsEven(dim, rows[j], format);
    ColumnCellsOne(dim, before, rows[j]);
    ColumnCellsAppend(dim, before + [rows[j]], after);
    assert rows == before + [rows[j]] + after;
    assert ColumnCells(dim, rows) == ColumnCells(dim, before) + Cells(dim, rows[j]) + ColumnCells(dim, after);
  }

  lemma CellsHold(dim: Dimension, cells: seq<Cell>, j: nat, row: Row, format: Format)
    requires |row.extraBytes| == format.extraLen
    requires var w := CellWidth(dim, format); w * j + w <= |cells| && cells[w * j..w * j + w] == Cells(dim, row)
    ensures HoldsField(dim, cells, j, row)
  {
    var w := CellWidth(dim, format);
    assert forall m :: w * j <= m < w * j + w ==> cells[m] == cells[w * j..w * j + w][m - w * j];
    if dim != ExtraBytes {
      assert w == 1;
      assert cells[j] == cells[w * j..w * j + w][0];
    }
  }

  /** Place `j` of a filled column holds field `dim` of row `j`. */
  lemma ColumnHolds(dim: Dimension, rows: seq<Row>, format: Format, j: nat)
    requires Even(rows, format) && j < |rows|
    ensures HoldsField(dim, ColumnCells(dim, rows), j, rows[j])
  {
    hide Cells, CellWidth, ColumnCells, HoldsField;
    ColumnCellsAt(dim, rows, format, j);
    CellsHold(dim, ColumnCells(dim, rows), j, rows[j], format);
  }

  // From bytes to columns ---------------------------------------------------

  /** Place `j` of a column holds what the record's bytes say. */
  ghost predicate HoldsBytes(dim: Dimension, cells: seq<Cell>, j: nat, b: seq<byte>, t: Transform, format: Format)
    requires |b| == format.Len()
  {
    if dim == ExtraBytes then
      var w, from := format.extraLen, if format.hasColor then 36 else 30;
      w * j + w <= |cells| && forall m :: w * j <= m < w * j + w ==> cells[m] == Word(b[from + (m - w * j)])
    else
      j < |cells| &&
      match dim
      case X => cells[j] == Real(t.x.scale * Int32(b, 0) as real + t.x.offset)
      case Y => cells[j] == Real(t.y.scale * Int32(b, 4) as real + t.y.offset)
      case Z => cells[j] == Real(t.z.scale * Int32(b, 8) as real + t.z.offset)
      case Intensity => cells[j] == Word(Word16(b, 12))
      case ReturnNumber => cells[j] == Word(b[14] as int % 16)
      case NumberOfReturns => cells[j] == Word(b[14] as int / 16)
      case Synthetic => cells[j] == Flag(b[15] as int % 2 == 1)
      case KeyPoint => cells[j] == Flag(b[15] as int / 2 % 2 == 1)
      case Withheld => cells[j] == Flag(b[15] as int / 4 % 2 == 1)
      case Overlap => cells[j] == Flag(b[15] as int / 8 % 2 == 1)
      case ScanChannel => cells[j] == Word(b[15] as int / 16 % 4)
      case ScanDirectionFlag => cells[j] == Flag(b[15] as int / 64 % 2 == 1)
      case EdgeOfFlightLine => cells[j] == Flag(b[15] as int / 128 == 1)
      case Classification => cells[j] == Word(if b[16] == 12 then 1 else b[16])
      case UserData => cells[j] == Word(b[17])
      case ScanAngle => cells[j] == Real(Int16(b, 18) as real * 0.006)
      case PointSourceId => cells[j] == Word(Word16(b, 20))
      case GpsTime => cells[j] == Word(Word64(b, 22))
      case Red => cells[j] == Word(if format.hasColor then Word16(b, 30) else 0)
      case Green => cells[j] == Word(if format.hasColor then Word16(b, 32) else 0)
      case Blue => cells[j] == Word(if format.hasColor then Word16(b, 34) else 0)
      case ExtraBytes => true
  }

  lemma FieldsAreBytes(dim: Dimension, cells: seq<Cell>, j: nat, b: seq<byte>, t: Transform, format: Format)
    requires |b| == format.Len() && HoldsField(dim, cells, j, DecodeRow(b, t, format))
    ensures HoldsBytes(dim, cells, j, b, t, format)
  {
    hide DecodeRow, Int32, Int16, Word16, Word64;
    RowLayout(b, t, format);
    if dim == ExtraBytes {
      var from := if format.hasColor then 36 else 30;
      assert forall k :: 0 <= k < format.extraLen ==> b[from..][k] == b[from + k];
    }
  }

  /** The batch holds, for every column asked for and every record kept, what that record's bytes say. */
  ghost predicate BatchSays(batch: Batch, dec: Decoder, dims: seq<Dimension>, bufs: seq<seq<byte>>) {
    && batch.len == |bufs| && |batch.columns| == |dims|
    && forall d :: 0 <= d < |dims| ==> ColumnSays(batch.columns[d], dec, dims[d], bufs)
  }

  ghost predicate ColumnSays(column: Column, dec: Decoder, dim: Dimension, bufs: seq<seq<byte>>) {
    && column.dim == dim && |column.cells| == (if dim == ExtraBytes then dec.format.extraLen else 1) * |bufs|
    && forall j :: 0 <= j < |bufs| ==>
         |bufs[j]| == dec.format.Len() && HoldsBytes(dim, column.cells, j, bufs[j], dec.transform, dec.format)
  }

  lemma RowsEven(dec: Decoder, bufs: seq<seq<byte>>, rows: seq<Row>)
    requires RowsOf(dec, bufs, rows)
    ensures Even(rows, dec.format)
  {
    forall j | 0 <= j < |rows| ensures |rows[j].extraBytes| == dec.format.extraLen {
      assert rows[j] == dec.RowOf(bufs[j]);
    }
  }

  lemma ColumnFromBytes(dec: Decoder, dim: Dimension, bufs: seq<seq<byte>>, rows: seq<Row>)
    requires RowsOf(dec, bufs, rows)
    ensures ColumnSays(Column(dim, ColumnCells(dim, rows)), dec, dim, bufs)
  {
    hide DecodeRow, ColumnCells, HoldsField, HoldsBytes;
    RowsEven(dec, bufs, rows);
    ColumnCellsSize(dim, rows, dec.format);
    forall j | 0 <= j < |bufs|
      ensures |bufs[j]| == dec.format.Len() && HoldsBytes(dim, ColumnCells(dim, rows), j, bufs[j], dec.transform, dec.format)
    {
      ColumnHolds(dim, rows, dec.format, j);
      FieldsAreBytes(dim, ColumnCells(dim, rows), j, bufs[j], dec.transform, dec.format);
    }
  }

  /** Whatever file the chunks come from, every column of a read holds what the bytes of the kept records say, in order. */
  lemma ReadSaysBytes(dec: Decoder, dims: seq<Dimension>, chunks: seq<Chunk>)
    requires dec.Valid() && dec.AllDecode(chunks)
    ensures BatchSays(BatchOf(dec, dims, chunks), dec, dims, KeptOf(dec, chunks))
  {
    hide ColumnSays, Decoder.AllDecode, Decoder.AllRows, Decoder.Valid, ColumnCells, KeptOf;
    KeptAllRows(dec, chunks);
    forall d | 0 <= d < |dims| ensures ColumnSays(BatchOf(dec, dims, chunks).columns[d], dec, dims[d], KeptOf(dec, chunks)) {
      ColumnFromBytes(dec, dims[d], KeptOf(dec, chunks), dec.AllRows(chunks));
    }
  }
}
