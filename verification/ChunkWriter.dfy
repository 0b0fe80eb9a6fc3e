/** Compressing the nodes of an index into consecutive point chunks (copc-writer/src/writer.rs). */
module ChunkWriter {
  import opened Core
  import opened Voxel
  import opened Codec
  import opened Words
  import opened Hierarchy
  import opened LodShape
  import opened ChunkRanges
  import opened HierarchyPages

  const INT64_MAX: int := 0x7FFF_FFFF_FFFF_FFFF

  /** A row of the chunk table: a chunk's points and bytes. */
  datatype ChunkTableEntry = ChunkTableEntry(pointCount: nat, byteCount: nat)

  /** The foreign parts: encoding a node's points, compressing them to one chunk, and the format of the chunk table. */
  datatype Laz = Laz(encode: LodNodeRange -> Result<seq<byte>>, compress: seq<byte> -> seq<byte>, table: seq<ChunkTableEntry> -> seq<byte>)
  {
    /** The chunk of a node whose points encode. */
    function Chunk(n: LodNodeRange): seq<byte> {
      match encode(n)
      case Ok(raw) => compress(raw)
      case Err(_) => []
    }
  }

  /** `hierarchy_entry` */
  function HierarchyEntry(key: VoxelKey, offset: uint64, byteSize: nat, count: nat): Result<Entry> {
    if byteSize > INT32_MAX then Err(InvalidInput)
    else if count > INT32_MAX then Err(InvalidInput)
    else Ok(Entry(key, offset, byteSize, count))
  }

  // The layout of the chunks ------------------------------------------------

  /** The chunks of the nodes one after another. */
  ghost function Packed(laz: Laz, nodes: seq<LodNodeRange>): seq<byte> {
    if nodes == [] then [] else Packed(laz, nodes[..|nodes| - 1]) + laz.Chunk(nodes[|nodes| - 1])
  }

  /** A node's chunk can be written and recorded at an offset. */
  ghost predicate NodeFits(laz: Laz, n: LodNodeRange, at: nat) {
    && laz.encode(n).Ok?
    && |laz.Chunk(n)| <= 2147483647 && n.count <= 2147483647
    && at + |laz.Chunk(n)| <= 18446744073709551615
  }

  ghost predicate NodesFit(laz: Laz, nodes: seq<LodNodeRange>, at: nat) {
    nodes == [] ||
    var n := |nodes| - 1;
    NodesFit(laz, nodes[..n], at) && NodeFits(laz, nodes[n], at + |Packed(laz, nodes[..n])|)
  }

  ghost function NodeEntry(laz: Laz, n: LodNodeRange, at: nat): Entry
    requires NodeFits(laz, n, at)
  {
    Entry(n.key, at, |laz.Chunk(n)|, n.count)
  }

  /** The entries recorded for the nodes when the first chunk starts at `at`. */
  ghost function NodeEntries(laz: Laz, nodes: seq<LodNodeRange>, at: nat): (entries: seq<Entry>)
    requires NodesFit(laz, nodes, at)
    ensures |entries| == |nodes|
  {
    if nodes == [] then []
    else
      var n := |nodes| - 1;
      NodeEntries(laz, nodes[..n], at) + [NodeEntry(laz, nodes[n], at + |Packed(laz, nodes[..n])|)]
  }

  lemma NoNodes(laz: Laz, at: nat)
    ensures Packed(laz, []) == [] && NodesFit(laz, [], at) && NodeEntries(laz, [], at) == []
  {
  }

  lemma OneMoreNode(laz: Laz, nodes: seq<LodNodeRange>, i: nat, at: nat)
    requires i < |nodes|
    ensures Packed(laz, nodes[..i + 1]) == Packed(laz, nodes[..i]) + laz.Chunk(nodes[i])
    ensures NodesFit(laz, nodes[..i + 1], at) <==>
      NodesFit(laz, nodes[..i], at) && NodeFits(laz, nodes[i], at + |Packed(laz, nodes[..i])|)
    ensures NodesFit(laz, nodes[..i + 1], at) ==>
      NodeEntries(laz, nodes[..i + 1], at)
        == NodeEntries(laz, nodes[..i], at) + [NodeEntry(laz, nodes[i], at + |Packed(laz, nodes[..i])|)]
  {
    assert nodes[..i + 1][..i] == nodes[..i];
  }

  lemma {:induction false} FitPrefix(laz: Laz, nodes: seq<LodNodeRange>, i: nat, at: nat)
    requires i <= |nodes| && NodesFit(laz, nodes, at)
    ensures NodesFit(laz, nodes[..i], at)
    ensures i < |nodes| ==> NodeFits(laz, nodes[i], at + |Packed(laz, nodes[..i])|)
    decreases |nodes|
  {
    hide NodeFits, Packed;
    if i < |nodes| {
      var n := |nodes| - 1;
      FitPrefix(laz, nodes[..n], i, at);
      assert nodes[..n][..i] == nodes[..i];
    } else {
      assert nodes[..i] == nodes;
    }
  }

  // The two writers ---------------------------------------------------------

  /** The point-data section: the table's offset, the chunks, the table. */
  ghost function Section(laz: Laz, nodes: seq<LodNodeRange>, at: nat): seq<byte>
    requires at + 8 + |Packed(laz, nodes)| <= INT64_MAX
  {
    ToLe(at + 8 + |Packed(laz, nodes)|, 8) + Packed(laz, nodes) + laz.table(TableRows(laz, nodes))
  }

  ghost function TableRows(laz: Laz, nodes: seq<LodNodeRange>): (rows: seq<ChunkTableEntry>)
    ensures |rows| == |nodes|
    ensures forall i :: 0 <= i < |nodes| ==> rows[i] == ChunkTableEntry(nodes[i].count, |laz.Chunk(nodes[i])|)
  {
    seq(|nodes|, i requires 0 <= i < |nodes| => ChunkTableEntry(nodes[i].count, |laz.Chunk(nodes[i])|))
  }

  /** Every node can be written when the section starts at `at`, and the table's offset fits an i64. */
  ghost predicate SectionFits(laz: Laz, nodes: seq<LodNodeRange>, at: nat) {
    NodesFit(laz, nodes, at + 8) && at + 8 + |Packed(laz, nodes)| <= 9223372036854775807
  }

  /** The bytes of the entries' chunks. */
  ghost function ChunkBytes(entries: seq<Entry>): int {
    if entries == [] then 0 else ChunkBytes(entries[..|entries| - 1]) + entries[|entries| - 1].byteSize
  }

  /** The rows are the entries' point and byte counts. */
  ghost predicate ListsChunks(rows: seq<ChunkTableEntry>, entries: seq<Entry>) {
    |rows| == |entries| && forall i :: 0 <= i < |rows| ==>
      rows[i].pointCount == entries[i].pointCount && rows[i].byteCount == entries[i].byteSize
  }

  /** The word at `start` leads to the chunk table, behind the chunks, and the table lists the entries' chunks. */
  ghost predicate TableFound(laz: Laz, bytes: seq<byte>, start: nat, entries: seq<Entry>) {
    && start + 8 <= |bytes|
    && Word64(bytes, start) == start + 8 + ChunkBytes(entries)
    && Word64(bytes, start) <= |bytes|
    && exists rows :: ListsChunks(rows, entries) && bytes[Word64(bytes, start)..] == laz.table(rows)
  }

  lemma {:induction false} ChunksPacked(laz: Laz, nodes: seq<LodNodeRange>, at: nat)
    requires NodesFit(laz, nodes, at)
    ensures ChunkBytes(NodeEntries(laz, nodes, at)) == |Packed(laz, nodes)|
    ensures ListsChunks(TableRows(laz, nodes), NodeEntries(laz, nodes, at))
  {
    hide Laz.Chunk;
    if nodes != [] {
      var n := |nodes| - 1;
      ChunksPacked(laz, nodes[..n], at);
      assert NodeEntries(laz, nodes, at)[..n] == NodeEntries(laz, nodes[..n], at);
      assert TableRows(laz, nodes)[..n] == TableRows(laz, nodes[..n]);
    }
  }

  lemma TableIsFound(laz: Laz, nodes: seq<LodNodeRange>, before: seq<byte>)
    requires SectionFits(laz, nodes, |before|)
    ensures TableFound(laz, before + Section(laz, nodes, |before|), |before|, NodeEntries(laz, nodes, |before| + 8))
  {
    hide Packed, NodesFit, NodeEntries, ToLe, TableRows, ChunkBytes, ListsChunks, Word64;
    var at, table := |before| + 8 + |Packed(laz, nodes)|, laz.table(TableRows(laz, nodes));
    ChunksPacked(laz, nodes, |before| + 8);
    var bytes := before + Section(laz, nodes, |before|);
    assert bytes[|before|..|before| + 8] == ToLe(at, 8);
    WroteWord64(bytes, |before|, at);
    assert bytes == (before + ToLe(at, 8) + Packed(laz, nodes)) + table;
    assert bytes[at..] == table;
  }

  /** Writes the chunk table and patches its offset in front of the chunks. */
  method FinishSection(out: Output, laz: Laz, rows: seq<ChunkTableEntry>, ghost nodes: seq<LodNodeRange>, ghost before: seq<byte>, start: nat)
    returns (r: Result<()>)
    requires start == |before| && |out.bytes| >= start + 8 && rows == TableRows(laz, nodes)
    requires out.bytes[..start] == before && out.bytes[start + 8..] == Packed(laz, nodes)
    modifies out
    ensures r.Ok? <==> start + 8 + |Packed(laz, nodes)| <= INT64_MAX
    ensures r.Ok? ==> out.bytes == before + Section(laz, nodes, start)
  {
    var tablePosition := |out.bytes|;
    out.bytes := out.bytes + laz.table(rows);
    if tablePosition > INT64_MAX {
      return Err(InvalidInput);
    }
    out.bytes := out.bytes[..start] + ToLe(tablePosition, 8) + out.bytes[start + 8..];
    return Ok(());
  }

  lemma FitsNeeds(laz: Laz, n: LodNodeRange, at: nat)
    ensures NodeFits(laz, n, at) ==> laz.encode(n).Ok?
    ensures laz.encode(n).Ok? ==> laz.Chunk(n) == laz.compress(laz.encode(n).value)
  {
  }

  /** Writes one chunk and makes its entry; returns the entry and where the next chunk starts. */
  method PutChunk(out: Output, laz: Laz, n: LodNodeRange, chunk: seq<byte>, chunkStart: uint64)
    returns (r: Result<(Entry, uint64)>)
    requires laz.encode(n).Ok? && chunk == laz.Chunk(n)
    modifies out
    ensures out.bytes == old(out.bytes) + chunk
    ensures r.Ok? <==> NodeFits(laz, n, chunkStart)
    ensures r.Ok? ==> r.value == (NodeEntry(laz, n, chunkStart), chunkStart + |chunk|)
  {
    out.bytes := out.bytes + chunk;
    var entry := HierarchyEntry(n.key, chunkStart, |chunk|, n.count);
    if entry.Err? {
      return Err(entry.error);
    }
    if chunkStart + |chunk| > UINT64_MAX {
      return Err(InvalidInput);
    }
    return Ok((entry.value, chunkStart + |chunk|));
  }

  /** `compress_nodes`, one chunk after another. */
  method CompressNodes(out: Output, laz: Laz, nodes: seq<LodNodeRange>) returns (r: Result<seq<Entry>>)
    requires |out.bytes| <= UINT32_MAX
    modifies out
    ensures r.Ok? <==> SectionFits(laz, nodes, |old(out.bytes)|)
    ensures r.Ok? ==> r.value == NodeEntries(laz, nodes, |old(out.bytes)| + 8)
    ensures r.Ok? ==> out.bytes == old(out.bytes) + Section(laz, nodes, |old(out.bytes)|)
    ensures r.Ok? ==> TableFound(laz, out.bytes, |old(out.bytes)|, r.value)
  {
    hide Packed, NodesFit, NodeEntries, NodeFits, NodeEntry, ToLe, Laz.Chunk, Underway, Section, TableFound, TableRows;
    var start := |out.bytes|;
    ghost var before := out.bytes;
    out.bytes := out.bytes + ToLe(0, 8);
    var entries: seq<Entry> := [];
    var rows: seq<ChunkTableEntry> := [];
    var chunkStart: uint64 := start + 8;
    SectionBegins(laz, nodes, before, out.bytes);
    for i := 0 to |nodes|
      invariant Underway(laz, nodes, i, before, out.bytes, entries, rows, chunkStart)
    {
      var node := nodes[i];
      UnderwayStep(laz, nodes, i, before, out.bytes, entries, rows, chunkStart);
      FitsNeeds(laz, node, chunkStart);
      var raw := laz.encode(node);
      if raw.Err? {
        return Err(raw.error);
      }
      var chunk := laz.compress(raw.value);
      var written := PutChunk(out, laz, node, chunk, chunkStart);
      if written.Err? {
        return Err(written.error);
      }
      entries := entries + [written.value.0];
      rows := rows + [ChunkTableEntry(node.count, |chunk|)];
      chunkStart := written.value.1;
    }
    SectionReady(laz, nodes, before, out.bytes, entries, rows, chunkStart);
    var finished := FinishSection(out, laz, rows, nodes, before, start);
    if finished.Err? {
      return Err(finished.error);
    }
    TableIsFound(laz, nodes, before);
    return Ok(entries);
  }

  /** Encodes a batch of nodes before any of them is written. */
  method EncodeBatch(laz: Laz, batch: seq<LodNodeRange>) returns (r: Result<seq<seq<byte>>>)
    ensures r.Ok? <==> forall n :: n in batch ==> laz.encode(n).Ok?
    ensures r.Ok? ==> |r.value| == |batch| && forall i :: 0 <= i < |batch| ==> r.value[i] == laz.Chunk(batch[i])
  {
    var raws: seq<seq<byte>> := [];
    for i := 0 to |batch|
      invariant |raws| == i && forall j :: 0 <= j < i ==> laz.encode(batch[j]) == Ok(raws[j])
    {
      assert batch[i] in batch;
      var raw := laz.encode(batch[i]);
      if raw.Err? {
        return Err(raw.error);
      }
      raws := raws + [raw.value];
    }
    return Ok(seq(|raws|, i requires 0 <= i < |raws| => laz.compress(raws[i])));
  }

  lemma AllEncode(laz: Laz, nodes: seq<LodNodeRange>, at: nat, lo: nat, hi: nat)
    requires lo <= hi <= |nodes| && NodesFit(laz, nodes, at)
    ensures forall n :: n in nodes[lo..hi] ==> laz.encode(n).Ok?
  {
    hide NodesFit, Packed;
    forall n | n in nodes[lo..hi] ensures laz.encode(n).Ok? {
      var i :| lo <= i < hi && nodes[i] == n;
      FitPrefix(laz, nodes, i, at);
    }
  }

  /** The section written so far: `before`, the table's offset field, and the chunks of the first `i` nodes. */
  ghost predicate Underway(laz: Laz, nodes: seq<LodNodeRange>, i: nat, before: seq<byte>, bytes: seq<byte>, entries: seq<Entry>,
    rows: seq<ChunkTableEntry>, chunkStart: int)
  {
    var start := |before|;
    && i <= |nodes| && NodesFit(laz, nodes[..i], start + 8) && entries == NodeEntries(laz, nodes[..i], start + 8)
    && |bytes| >= start + 8 && bytes[..start] == before && bytes[start + 8..] == Packed(laz, nodes[..i])
    && rows == TableRows(laz, nodes[..i]) && chunkStart == |bytes|
  }

  lemma UnderwayStep(laz: Laz, nodes: seq<LodNodeRange>, i: nat, before: seq<byte>, bytes: seq<byte>, entries: seq<Entry>,
    rows: seq<ChunkTableEntry>, chunkStart: int)
    requires i < |nodes| && Underway(laz, nodes, i, before, bytes, entries, rows, chunkStart)
    ensures NodesFit(laz, nodes, |before| + 8) ==> NodeFits(laz, nodes[i], chunkStart)
    ensures NodeFits(laz, nodes[i], chunkStart) ==>
      var chunk := laz.Chunk(nodes[i]);
      Underway(laz, nodes, i + 1, before, bytes + chunk, entries + [NodeEntry(laz, nodes[i], chunkStart)],
        rows + [ChunkTableEntry(nodes[i].count, |chunk|)], chunkStart + |chunk|)
  {
    hide Packed, NodesFit, NodeEntries, NodeFits, NodeEntry, Laz.Chunk;
    OneMoreNode(laz, nodes, i, |before| + 8);
    if NodesFit(laz, nodes, |before| + 8) {
      FitPrefix(laz, nodes, i, |before| + 8);
    }
  }

  /** Writes the chunks of one batch in node order. */
  method WriteBatch(out: Output, laz: Laz, nodes: seq<LodNodeRange>, lo: nat, hi: nat, chunks: seq<seq<byte>>,
    entriesSoFar: seq<Entry>, rowsSoFar: seq<ChunkTableEntry>, chunkStart: uint64, ghost before: seq<byte>)
    returns (r: Result<(seq<Entry>, seq<ChunkTableEntry>, uint64)>)
    requires lo <= hi <= |nodes| && |chunks| == hi - lo
    requires forall i :: lo <= i < hi ==> laz.encode(nodes[i]).Ok? && chunks[i - lo] == laz.Chunk(nodes[i])
    requires Underway(laz, nodes, lo, before, out.bytes, entriesSoFar, rowsSoFar, chunkStart)
    modifies out
    ensures NodesFit(laz, nodes, |before| + 8) ==> r.Ok?
    ensures r.Err? ==> !NodesFit(laz, nodes, |before| + 8)
    ensures r.Ok? ==> Underway(laz, nodes, hi, before, out.bytes, r.value.0, r.value.1, r.value.2)
  {
    hide Underway, NodesFit, NodeFits, NodeEntry, Laz.Chunk;
    var entries, rows, next: uint64 := entriesSoFar, rowsSoFar, chunkStart;
    for i := lo to hi
      invariant Underway(laz, nodes, i, before, out.bytes, entries, rows, next)
    {
      UnderwayStep(laz, nodes, i, before, out.bytes, entries, rows, next);
      var written := PutChunk(out, laz, nodes[i], chunks[i - lo], next);
      if written.Err? {
        return Err(written.error);
      }
      entries := entries + [written.value.0];
      rows := rows + [ChunkTableEntry(nodes[i].count, |chunks[i - lo]|)];
      next := written.value.1;
    }
    return Ok((entries, rows, next));
  }

  /** `compress_nodes` in batches: a batch is encoded and compressed whole, then written in node order. */
  method CompressNodesInBatches(out: Output, laz: Laz, nodes: seq<LodNodeRange>, batchSize: nat) returns (r: Result<seq<Entry>>)
    requires |out.bytes| <= UINT32_MAX && batchSize > 0
    modifies out
    ensures r.Ok? <==> SectionFits(laz, nodes, |old(out.bytes)|)
    ensures r.Ok? ==> r.value == NodeEntries(laz, nodes, |old(out.bytes)| + 8)
    ensures r.Ok? ==> out.bytes == old(out.bytes) + Section(laz, nodes, |old(out.bytes)|)
    ensures r.Ok? ==> TableFound(laz, out.bytes, |old(out.bytes)|, r.value)
  {
    hide Packed, NodesFit, NodeEntries, NodeFits, NodeEntry, ToLe, Laz.Chunk, Underway, Section, TableFound, TableRows;
    var start := |out.bytes|;
    ghost var before := out.bytes;
    out.bytes := out.bytes + ToLe(0, 8);
    var entries: seq<Entry> := [];
    var rows: seq<ChunkTableEntry> := [];
    var chunkStart: uint64 := start + 8;
    SectionBegins(laz, nodes, before, out.bytes);
    var lo := 0;
    while lo < |nodes|
      invariant Underway(laz, nodes, lo, before, out.bytes, entries, rows, chunkStart)
      invariant lo <= |nodes|
    {
      var hi := if |nodes| - lo < batchSize then |nodes| else lo + batchSize;
      if NodesFit(laz, nodes, start + 8) {
        AllEncode(laz, nodes, start + 8, lo, hi);
      }
      var chunks := EncodeBatch(laz, nodes[lo..hi]);
      if chunks.Err? {
        return Err(chunks.error);
      }
      assert forall i :: lo <= i < hi ==> nodes[lo..hi][i - lo] == nodes[i] && nodes[i] in nodes[lo..hi];
      var written := WriteBatch(out, laz, nodes, lo, hi, chunks.value, entries, rows, chunkStart, before);
      if written.Err? {
        return Err(written.error);
      }
      entries, rows, chunkStart := written.value.0, written.value.1, written.value.2;
      lo := hi;
    }
    SectionReady(laz, nodes, before, out.bytes, entries, rows, chunkStart);
    var finished := FinishSection(out, laz, rows, nodes, before, start);
    if finished.Err? {
      return Err(finished.error);
    }
    TableIsFound(laz, nodes, before);
    return Ok(entries);
  }

  lemma SectionBegins(laz: Laz, nodes: seq<LodNodeRange>, before: seq<byte>, bytes: seq<byte>)
    requires |bytes| == |before| + 8 && bytes[..|before|] == before
    ensures Underway(laz, nodes, 0, before, bytes, [], [], |bytes|)
  {
    NoNodes(laz, |before| + 8);
    assert nodes[..0] == [];
  }

  lemma SectionReady(laz: Laz, nodes: seq<LodNodeRange>, before: seq<byte>, bytes: seq<byte>, entries: seq<Entry>,
    rows: seq<ChunkTableEntry>, chunkStart: int)
    requires Underway(laz, nodes, |nodes|, before, bytes, entries, rows, chunkStart)
    ensures NodesFit(laz, nodes, |before| + 8) && entries == NodeEntries(laz, nodes, |before| + 8) && rows == TableRows(laz, nodes)
    ensures |bytes| >= |before| + 8 && bytes[..|before|] == before && bytes[|before| + 8..] == Packed(laz, nodes)
  {
    hide Packed, NodesFit, NodeEntries;
    assert nodes[..|nodes|] == nodes;
  }

  // What the entries promise ------------------------------------------------

  lemma {:induction false} PackedPrefix(laz: Laz, nodes: seq<LodNodeRange>, i: nat)
    requires i <= |nodes|
    ensures Packed(laz, nodes[..i]) <= Packed(laz, nodes)
    decreases |nodes|
  {
    if i < |nodes| {
      PackedPrefix(laz, nodes[..|nodes| - 1], i);
      assert nodes[..|nodes| - 1][..i] == nodes[..i];
    } else {
      assert nodes[..i] == nodes;
    }
  }

  lemma {:induction false} EntryAt(laz: Laz, nodes: seq<LodNodeRange>, at: nat, i: nat)
    requires NodesFit(laz, nodes, at) && i < |nodes|
    ensures NodeFits(laz, nodes[i], at + |Packed(laz, nodes[..i])|)
    ensures NodeEntries(laz, nodes, at)[i] == NodeEntry(laz, nodes[i], at + |Packed(laz, nodes[..i])|)
    decreases |nodes|
  {
    hide Packed, NodeFits;
    var n := |nodes| - 1;
    if i < n {
      EntryAt(laz, nodes[..n], at, i);
      assert nodes[..n][..i] == nodes[..i];
    }
  }

  /** Chunks follow one another without gap inside the packed bytes, and hold their node's points. */
  lemma ChunksConsecutive(laz: Laz, nodes: seq<LodNodeRange>, at: nat, i: nat)
    requires NodesFit(laz, nodes, at) && i < |nodes|
    ensures var e := NodeEntries(laz, nodes, at)[i];
      && at <= e.offset && e.byteSize == |laz.Chunk(nodes[i])| && e.offset + e.byteSize <= at + |Packed(laz, nodes)|
      && Packed(laz, nodes)[e.offset - at..e.offset - at + e.byteSize] == laz.Chunk(nodes[i])
      && e.offset + e.byteSize == at + |Packed(laz, nodes[..i + 1])|
      && e.offset == at + |Packed(laz, nodes[..i])|
  {
    hide Packed, NodesFit, NodeEntries;
    EntryAt(laz, nodes, at, i);
    OneMoreNode(laz, nodes, i, at);
    PackedPrefix(laz, nodes, i + 1);
  }

  lemma ChunksApart(laz: Laz, nodes: seq<LodNodeRange>, at: nat)
    requires NodesFit(laz, nodes, at)
    ensures AllDisjoint(NodeEntries(laz, nodes, at))
  {
    hide Packed, NodesFit, NodeEntries;
    var entries := NodeEntries(laz, nodes, at);
    forall i, j | 0 <= i < j < |entries| ensures ChunksDisjoint(entries[i], entries[j]) {
      ChunksConsecutive(laz, nodes, at, i);
      ChunksConsecutive(laz, nodes, at, j);
      PackedPrefix(laz, nodes[..j], i + 1);
      assert nodes[..j][..i + 1] == nodes[..i + 1];
    }
  }

  /** The entries' point counts add up to the nodes'. */
  lemma {:induction false} EntriesCount(laz: Laz, nodes: seq<LodNodeRange>, at: nat)
    requires NodesFit(laz, nodes, at)
    ensures EntriesPoints(NodeEntries(laz, nodes, at)) == Sum(Counts(nodes))
  {
    hide Packed;
    if nodes != [] {
      var n := |nodes| - 1;
      EntriesCount(laz, nodes[..n], at);
      var entries := NodeEntries(laz, nodes, at);
      assert entries[..n] == NodeEntries(laz, nodes[..n], at);
      assert Counts(nodes)[..n] == Counts(nodes[..n]);
    }
  }
}
