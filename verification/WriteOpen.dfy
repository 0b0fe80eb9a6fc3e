/** A file the writer finishes is a file the reader opens, with nothing lost on the way. */
module WriteOpen {
  import opened Core
  import opened Voxel
  import opened Bounds
  import opened Codec
  import opened Words
  import opened Sorting
  import opened Hierarchy
  import opened HierarchyPages
  import opened PagePlan
  import opened PageLayout
  import opened LodShape
  import opened LodIndexBuild
  import opened ChunkRanges
  import opened ChunkWriter
  import opened Loader
  import opened LoaderFacts
  import opened RoundTrip
  import opened HierarchyFile
  import opened WrittenTrees
  import opened WrittenTidy
  import opened LazyReady
  import opened Selection
  import opened RangeReader
  import opened LazyEager
  import opened LazyRuns

  /** Nodes as the index builder leaves them. */
  ghost predicate GoodNodes(nodes: seq<LodNodeRange>) {
    DistinctKeys(nodes) &&
    forall n :: n in nodes ==> n.key.Valid() && n.key.level <= MAX_OCTREE_DEPTH && n.count > 0
  }

  ghost predicate NeverEmpty(laz: Laz) {
    forall raw :: |laz.compress(raw)| > 0
  }

  /** Everything but the header, in the order it is written: what differs between writers is given. */
  datatype Body = Body(prefix: seq<byte>, laz: Laz, nodes: seq<LodNodeRange>,
                       evlrHeader: nat -> seq<byte>, trailer: seq<byte>, points: uint64)
  {
    ghost predicate Valid() {
      |prefix| <= UINT32_MAX && NeverEmpty(laz) && GoodNodes(nodes)
    }

    ghost predicate Fits() {
      SectionFits(laz, nodes, |prefix|)
    }

    ghost function Entries(): seq<Entry>
      requires Fits()
    {
      NodeEntries(laz, nodes, |prefix| + 8)
    }

    /** Where the point data ends and the hierarchy EVLR begins. */
    ghost function EvlrStart(): nat
      requires Fits()
    {
      |prefix| + |Section(laz, nodes, |prefix|)|
    }

    ghost function RootOffset(): nat
      requires Fits()
    {
      EvlrStart() + LAS_EVLR_HEADER_BYTES
    }

    /** The bytes in front of the hierarchy EVLR. */
    ghost function Front(): (bytes: seq<byte>)
      requires Fits()
      ensures |bytes| == EvlrStart()
    {
      prefix + Section(laz, nodes, |prefix|)
    }

    /** The file would not fit its 64-bit offsets (or the EVLR header is not 60 bytes). */
    ghost predicate Outgrown(page: Page)
      requires Fits()
    {
      RootOffset() > UINT64_MAX || (PlanOf(page, Entries(), ROOT) && !HierarchyFits(EvlrStart(), evlrHeader, page))
    }

    /** The file up to the trailer. */
    ghost function Untrailed(bytes: seq<byte>): seq<byte> {
      if |trailer| <= |bytes| then bytes[..|bytes| - |trailer|] else bytes
    }

    /** The finished file, around a plan of its hierarchy. */
    ghost predicate Wrote(page: Page, input: CopcInput) {
      && Fits()
      && input.bytes == Untrailed(input.bytes) + trailer
      && WroteHierarchy(Front(), Entries(), evlrHeader, page, Untrailed(input.bytes))
      && input.offsetToPointData == |prefix| && input.offsetToFirstEvlr == EvlrStart()
      && input.numberOfPoints == points
      && input.rootOffset == RootOffset() && input.rootSize == HIERARCHY_ENTRY_BYTES * |page.items|
      && input.evlrOffset == RootOffset() && input.evlrLen == TreeBytes(page)
    }
  }

  /** What the index builder hands over is what the writer needs. */
  lemma IndexNodesGood(index: LodIndex, source: seq<Vec3>, center: Vec3, halfsize: real, budget: nat)
    requires IndexOf(index, source, center, halfsize, budget)
    ensures GoodNodes(index.nodes)
  {
    hide CoveredOnce, Contained, AllInside, Sum, VoxelKey.Valid;
  }

  // Entries -----------------------------------------------------------------

  lemma EntriesValid(laz: Laz, nodes: seq<LodNodeRange>, at: nat)
    requires NodesFit(laz, nodes, at) && NeverEmpty(laz)
    requires forall n :: n in nodes ==> n.key.Valid() && n.count > 0
    ensures forall i :: 0 <= i < |nodes| ==>
      NodeEntries(laz, nodes, at)[i].Valid() && NodeEntries(laz, nodes, at)[i].HasPointData()
      && NodeEntries(laz, nodes, at)[i].key == nodes[i].key
  {
    hide NodesFit, NodeEntries, Packed, VoxelKey.Valid;
    forall i | 0 <= i < |nodes|
      ensures NodeEntries(laz, nodes, at)[i].Valid() && NodeEntries(laz, nodes, at)[i].HasPointData()
        && NodeEntries(laz, nodes, at)[i].key == nodes[i].key
    {
      EntryAt(laz, nodes, at, i);
      assert nodes[i] in nodes;
    }
  }

  /** The entries of good nodes can be planned. */
  lemma EntriesStorable(laz: Laz, nodes: seq<LodNodeRange>, at: nat)
    requires NodesFit(laz, nodes, at) && NeverEmpty(laz) && GoodNodes(nodes)
    ensures var entries := NodeEntries(laz, nodes, at);
      Storable(entries) && forall e :: e in entries ==> e.HasPointData()
  {
    hide NodesFit, NodeEntries, VoxelKey.Valid;
    EntriesValid(laz, nodes, at);
    var entries := NodeEntries(laz, nodes, at);
    forall e | e in entries ensures e.Valid() && e.HasPointData() && e.key.level <= 31 {
      var i :| 0 <= i < |entries| && entries[i] == e;
      assert nodes[i] in nodes;
    }
  }

  // Writing -----------------------------------------------------------------

  /**
   The part of `write_copc_inner` from the first chunk on. It fails only when a node cannot be written, there is no
   node, or the file would outgrow its 64-bit offsets.
   */
  method WriteBody(out: Output, body: Body, batchSize: nat) returns (r: Result<CopcInput>, ghost page: Page)
    requires body.Valid() && out.bytes == body.prefix
    modifies out
    ensures r.Ok? ==> body.Wrote(page, r.value) && Canonical(page, body.Entries()) && out.bytes == r.value.bytes
    ensures r.Err? ==> !body.Fits() || body.nodes == [] || body.Outgrown(page)
  {
    hide NodesFit, NodeEntries, Section, PlanOf, TreeBytes, Packed, GoodNodes, Storable, WroteHierarchy, HierarchyFits,
      Canonical, TableFound;
    page := Page(ROOT, [], 0, 0);
    var start := |out.bytes|;
    var compressed: Result<seq<Entry>>;
    if batchSize == 0 {
      compressed := CompressNodes(out, body.laz, body.nodes);
    } else {
      compressed := CompressNodesInBatches(out, body.laz, body.nodes, batchSize);
    }
    if compressed.Err? {
      return Err(compressed.error), page;
    }
    EntriesStorable(body.laz, body.nodes, start + 8);
    var evlrStart := |out.bytes|;
    var hierarchy: Result<(uint64, uint64, uint64)>;
    hierarchy, page := WriteHierarchy(out, compressed.value, body.evlrHeader);
    if hierarchy.Err? {
      return Err(hierarchy.error), page;
    }
    ghost var after := out.bytes;
    out.bytes := out.bytes + body.trailer;
    assert out.bytes[..|out.bytes| - |body.trailer|] == after;
    var (root, rootSize, bodySize) := hierarchy.value;
    return Ok(CopcInput(out.bytes, start, evlrStart, body.points, root, rootSize, root, bodySize)), page;
  }

  // Opening -----------------------------------------------------------------

  /** The reader's size limits that the writer does not enforce: 512 MiB a chunk, 256 MiB of hierarchy. */
  ghost predicate WithinReaderLimits(body: Body, page: Page) {
    && (forall n :: n in body.nodes ==> |body.laz.Chunk(n)| <= 536870912)
    && TreeBytes(page) <= 268435456
  }

  /** The lengths of a finished file. */
  lemma WroteShape(body: Body, page: Page, input: CopcInput)
    requires body.Wrote(page, input)
    ensures body.Front() <= input.bytes && body.RootOffset() + TreeBytes(page) <= UINT64_MAX
    ensures PlanOf(page, body.Entries(), ROOT) && HoldsTree(input, page)
  {
    hide NodesFit, NodeEntries, Packed, PlanOf, Writable, Image, TreeBytes, Laid, Section, InPlace, HoldsTree;
    WrittenIsHeld(body.Front(), body.Entries(), body.evlrHeader, page, body.Untrailed(input.bytes), body.trailer, input);
  }

  lemma EntryIsAccepted(body: Body, page: Page, input: CopcInput, i: nat)
    requires body.Valid() && body.Wrote(page, input) && WithinReaderLimits(body, page) && i < |body.nodes|
    ensures input.evlrOffset + input.evlrLen <= UINT64_MAX
    ensures EntryAccepted(EnvOf(input), body.Entries()[i]) && !body.Entries()[i].IsChildPage()
  {
    hide NodesFit, NodeEntries, Packed, PlanOf, WroteHierarchy, TreeBytes, VoxelKey.Valid, InPlace;
    WroteShape(body, page, input);
    EntriesValid(body.laz, body.nodes, |body.prefix| + 8);
    ChunksConsecutive(body.laz, body.nodes, |body.prefix| + 8, i);
    assert body.nodes[i] in body.nodes;
  }

  lemma AllAccepted(body: Body, page: Page, input: CopcInput)
    requires body.Valid() && body.Wrote(page, input) && WithinReaderLimits(body, page)
    ensures input.evlrOffset + input.evlrLen <= UINT64_MAX
    ensures EntriesAccepted(EnvOf(input), body.Entries())
  {
    hide NodesFit, NodeEntries, Packed, WroteHierarchy, TreeBytes, EntryAccepted, Body.Valid, WithinReaderLimits, PlanOf, HoldsTree;
    WroteShape(body, page, input);
    assert input.evlrOffset + input.evlrLen <= UINT64_MAX;
    var entries := body.Entries();
    forall e | e in entries ensures EntryAccepted(EnvOf(input), e) && !e.IsChildPage() {
      var i :| 0 <= i < |entries| && entries[i] == e;
      EntryIsAccepted(body, page, input, i);
    }
  }

  /**
   Write, then open: a finished file within the reader's size limits opens, and what the reader holds is exactly the
   entries written, with child-page entries only at keys that have none.
   */
  lemma WrittenFileOpens(body: Body, page: Page, input: CopcInput)
    requires body.Valid() && body.Wrote(page, input) && WithinReaderLimits(body, page)
    requires Sum(Counts(body.nodes)) == body.points
    ensures OpenHierarchy(input).Ok?
    ensures LoadedExactly(OpenHierarchy(input).value.hierarchy, body.Entries())
    ensures PagesNested(EnvOf(input), OpenHierarchy(input).value.fetched)
    ensures LoadAll(EnvOf(input), Root(input)) == OpenHierarchy(input)
  {
    hide NodesFit, NodeEntries, Packed, WroteHierarchy, TreeBytes, LoadAll, PlanOf, LoadedExactly, AllDisjoint, PagesNested, Section,
      EntriesAccepted, HoldsTree, Storable, OpenHierarchy, Sum, EntriesPoints, NeverEmpty, GoodNodes;
    WroteShape(body, page, input);
    AllAccepted(body, page, input);
    EntriesStorable(body.laz, body.nodes, |body.prefix| + 8);
    ChunksApart(body.laz, body.nodes, |body.prefix| + 8);
    EntriesCount(body.laz, body.nodes, |body.prefix| + 8);
    HierarchyOpens(body.Entries(), page, input);
  }

  // Nothing in a query's box is lost ----------------------------------------

  /** An index of the source's points over the cube built around its declared bounds. */
  ghost predicate Indexed(body: Body, index: LodIndex, source: seq<Vec3>, bounds: Box, budget: nat) {
    && bounds.Ordered() && (forall i :: 0 <= i < |source| ==> bounds.Contains(source[i]))
    && index.nodes == body.nodes && body.points == |source|
    && IndexOf(index, source, CubeFromBounds(bounds).0, CubeFromBounds(bounds).1, budget)
  }

  lemma SourceInCube(source: seq<Vec3>, bounds: Box)
    requires bounds.Ordered() && forall i :: 0 <= i < |source| ==> bounds.Contains(source[i])
    ensures AllInside(source, Iota(|source|), Cube(CubeFromBounds(bounds).0, CubeFromBounds(bounds).1))
  {
    CubeCoversBounds(bounds);
    forall i | i in Iota(|source|)
      ensures i < |source| && Cube(CubeFromBounds(bounds).0, CubeFromBounds(bounds).1).Contains(source[i])
    {
      var j :| 0 <= j < |source| && Iota(|source|)[j] == i;
    }
  }

  /** The node that lists a point has a voxel holding it. */
  lemma ListedInVoxel(index: LodIndex, source: seq<Vec3>, bounds: Box, budget: nat, n: LodNodeRange, p: int, i: nat)
    requires bounds.Ordered() && (forall j :: 0 <= j < |source| ==> bounds.Contains(source[j])) && i < |source|
    requires IndexOf(index, source, CubeFromBounds(bounds).0, CubeFromBounds(bounds).1, budget) && PointAt(index, n, p, i)
    ensures n.key.Valid() && VoxelBounds(n.key, CubeFromBounds(bounds).0, CubeFromBounds(bounds).1).Contains(source[i])
  {
    hide TreeShape, CoveredOnce, VoxelBounds, Sum, Box.Contains;
    SourceInCube(source, bounds);
  }

  /** A stored point entry whose voxel holds a point of the query box is selected at any level the query allows. */
  lemma PointIsSelected(h: EntryMap, info: CopcInfo, q: PointQuery, e: Entry, box: Box, at: Vec3)
    requires Keyed(h) && (forall k :: k in h ==> h[k].Valid()) && e.key in h && h[e.key] == e
    requires e.HasPointData() && e.key.Valid() && q.bounds == Some(box) && box.Contains(at) && LevelInRange(e, q)
    requires VoxelBounds(e.key, info.center, info.halfsize).Contains(at)
    ensures Select(SortedValues(h), info, q).Ok? && e in Select(SortedValues(h), info, q).value
  {
    hide SortedValues, Selected, Sort, VoxelBounds;
    assert box.Ordered();
    ValidSelectable(h, q);
    PointKeepsChunk(e.key, info, box, at);
    ValuesMembers(h, e);
    SelectMembers(SortedValues(h), info, q);
  }

  lemma OpenedKeys(input: CopcInput)
    requires OpenHierarchy(input).Ok?
    ensures Keyed(OpenHierarchy(input).value.hierarchy)
    ensures forall k :: k in OpenHierarchy(input).value.hierarchy ==> OpenHierarchy(input).value.hierarchy[k].Valid()
  {
    hide LoadAll, WholeAccepted, Connected;
    LoadAllComplete(Env(input.bytes, NewDataRanges(input).value), Root(input));
  }

  /**
   Bounded-query completeness. For every source, written and opened, and every query box: each source point in the box
   sits in a chunk that selection keeps whenever the query allows the chunk's level, and the file holds the chunk's
   bytes where its entry says.
   */
  lemma EveryPointIsFound(body: Body, page: Page, input: CopcInput, index: LodIndex, source: seq<Vec3>, bounds: Box, budget: nat,
    q: PointQuery, box: Box, i: nat) returns (n: LodNodeRange, p: int, e: Entry)
    requires body.Valid() && body.Wrote(page, input) && WithinReaderLimits(body, page)
    requires Indexed(body, index, source, bounds, budget)
    requires i < |source| && q.bounds == Some(box) && box.Contains(source[i])
    ensures OpenHierarchy(input).Ok? && PointAt(index, n, p, i) && e.key == n.key && e.pointCount == n.count
    ensures e.offset + e.byteSize <= |input.bytes| && 0 <= e.byteSize
    ensures input.bytes[e.offset..e.offset + e.byteSize] == body.laz.Chunk(n)
    ensures var found := Select(SortedValues(OpenHierarchy(input).value.hierarchy), CopcInfo(CubeFromBounds(bounds).0, CubeFromBounds(bounds).1), q);
      LevelInRange(e, q) ==> found.Ok? && e in found.value
  {
    hide Body.Wrote, Body.Valid, Body.Entries, WithinReaderLimits, IndexOf, PointAt, OpenHierarchy, SortedValues, Select, VoxelBounds,
      CubeFromBounds, LoadedExactly, PagesNested, NodesFit, NodeEntries, Packed, Section, LevelInRange, Box.Contains, Box.Ordered, VoxelKey.Valid;
    IndexAddsUp(index, source, CubeFromBounds(bounds).0, CubeFromBounds(bounds).1, budget);
    WrittenFileOpens(body, page, input);
    n, p := PointHome(index, source, bounds, budget, i);
    var k := NodePlace(index, n, p, i);
    e := StoredChunk(body, page, input, k);
    OpenedKeys(input);
    LoadedHas(OpenHierarchy(input).value.hierarchy, body, page, input, e);
    if LevelInRange(e, q) {
      PointIsSelected(OpenHierarchy(input).value.hierarchy, CopcInfo(CubeFromBounds(bounds).0, CubeFromBounds(bounds).1), q, e, box, source[i]);
    }
  }

  /** The node and slot that list a source point; its voxel holds the point. */
  lemma PointHome(index: LodIndex, source: seq<Vec3>, bounds: Box, budget: nat, i: nat) returns (n: LodNodeRange, p: int)
    requires bounds.Ordered() && (forall j :: 0 <= j < |source| ==> bounds.Contains(source[j])) && i < |source|
    requires IndexOf(index, source, CubeFromBounds(bounds).0, CubeFromBounds(bounds).1, budget)
    ensures PointAt(index, n, p, i) && n.key.Valid()
    ensures VoxelBounds(n.key, CubeFromBounds(bounds).0, CubeFromBounds(bounds).1).Contains(source[i])
  {
    hide IndexOf, PointAt, VoxelBounds, CubeFromBounds, Box.Contains, Box.Ordered, VoxelKey.Valid;
    EveryPointInOneNode(index, source, CubeFromBounds(bounds).0, CubeFromBounds(bounds).1, budget, i);
    n, p :| PointAt(index, n, p, i);
    ListedInVoxel(index, source, bounds, budget, n, p, i);
  }

  lemma NodePlace(index: LodIndex, n: LodNodeRange, p: int, i: nat) returns (k: nat)
    requires PointAt(index, n, p, i)
    ensures k < |index.nodes| && index.nodes[k] == n
  {
    k :| 0 <= k < |index.nodes| && index.nodes[k] == n;
  }

  lemma LoadedHas(h: EntryMap, body: Body, page: Page, input: CopcInput, e: Entry)
    requires body.Wrote(page, input) && LoadedExactly(h, body.Entries()) && e in body.Entries()
    ensures e.key in h && h[e.key] == e
  {
    hide Body.Wrote;
  }

  /** The chunks in the bytes in front of the hierarchy. */
  lemma PackedInFront(body: Body)
    requires body.Fits()
    ensures var at := |body.prefix| + 8; var packed := Packed(body.laz, body.nodes);
      at + |packed| <= body.EvlrStart() && body.Front()[at..at + |packed|] == packed
  {
    hide NodesFit, Packed, ToLe;
    var length, packed := ToLe(|body.prefix| + 8 + |Packed(body.laz, body.nodes)|, 8), Packed(body.laz, body.nodes);
    assert body.Front() == body.prefix + length + packed + body.laz.table(TableRows(body.laz, body.nodes));
  }

  lemma PrefixSlice(front: seq<byte>, bytes: seq<byte>, lo: nat, hi: nat)
    requires front <= bytes && lo <= hi <= |front|
    ensures bytes[lo..hi] == front[lo..hi]
  {
  }

  /** In a finished file the word at the start of the point data leads to the chunk table, which ends the section. */
  lemma WrittenTable(body: Body, page: Page, input: CopcInput) returns (rows: seq<ChunkTableEntry>)
    requires body.Wrote(page, input)
    ensures input.offsetToPointData + 8 <= input.offsetToFirstEvlr <= |input.bytes|
    ensures var at := Word64(input.bytes, input.offsetToPointData);
      && at == input.offsetToPointData + 8 + ChunkBytes(body.Entries()) <= input.offsetToFirstEvlr
      && input.bytes[at..input.offsetToFirstEvlr] == body.laz.table(rows)
    ensures |rows| == |body.Entries()|
    ensures forall i :: 0 <= i < |rows| ==>
      rows[i].pointCount == body.Entries()[i].pointCount && rows[i].byteCount == body.Entries()[i].byteSize
  {
    hide NodesFit, NodeEntries, Packed, WroteHierarchy, PlanOf, HoldsTree, TreeBytes, Section, Word64, ChunkBytes;
    WroteShape(body, page, input);
    TableIsFound(body.laz, body.nodes, body.prefix);
    var front, start := body.Front(), |body.prefix|;
    WordOfFront(front, input.bytes, start);
    rows :| ListsChunks(rows, body.Entries()) && front[Word64(front, start)..] == body.laz.table(rows);
    PrefixSlice(front, input.bytes, Word64(front, start), |front|);
    assert front[Word64(front, start)..|front|] == front[Word64(front, start)..];
  }

  lemma WordOfFront(front: seq<byte>, bytes: seq<byte>, at: nat)
    requires front <= bytes && at + 8 <= |front|
    ensures Word64(bytes, at) == Word64(front, at)
  {
    assert forall k :: 0 <= k < |front| ==> bytes[k] == front[k];
  }

  /** The entry of a written node, and its chunk in the file. */
  lemma StoredChunk(body: Body, page: Page, input: CopcInput, k: nat) returns (e: Entry)
    requires body.Valid() && body.Wrote(page, input) && k < |body.nodes|
    ensures e in body.Entries() && e.key == body.nodes[k].key && e.pointCount == body.nodes[k].count && e.HasPointData()
    ensures e.offset + e.byteSize <= |input.bytes| && 0 <= e.byteSize
    ensures input.bytes[e.offset..e.offset + e.byteSize] == body.laz.Chunk(body.nodes[k])
  {
    hide NodesFit, NodeEntries, Packed, WroteHierarchy, PlanOf, HoldsTree, TreeBytes, VoxelKey.Valid, ToLe, Section, Body.Front;
    WroteShape(body, page, input);
    var at := |body.prefix| + 8;
    e := body.Entries()[k];
    EntryAt(body.laz, body.nodes, at, k);
    ChunksConsecutive(body.laz, body.nodes, at, k);
    assert body.nodes[k] in body.nodes;
    var packed := Packed(body.laz, body.nodes);
    PackedInFront(body);
    PrefixSlice(body.Front(), input.bytes, at, at + |packed|);
    SliceOfSlice(input.bytes, at, at + |packed|, e.offset - at, e.offset - at + e.byteSize);
  }

  /** On a written file every successful run of lazy queries answers as the opened file does. */
  lemma LazyAgreesOnWrittenFile(body: Body, page: Page, input: CopcInput, src: Source, qs: seq<PointQuery>)
    requires body.Valid() && body.Wrote(page, input) && WithinReaderLimits(body, page)
    requires Sum(Counts(body.nodes)) == body.points
    requires src.env == EnvOf(input) && src.info.Valid()
    requires OpenLazy(src, Root(input)).ok && AllOk(src, OpenLazy(src, Root(input)).state, qs)
    ensures OpenHierarchy(input).Ok?
    ensures var st := OpenLazy(src, Root(input)).state; var h := OpenHierarchy(input).value.hierarchy;
      forall i :: 0 <= i < |qs| ==> Answer(src, st, qs, i) == Select(SortedValues(h), src.info, qs[i])
  {
    hide Body.Wrote, WithinReaderLimits, OpenHierarchy, SortedValues, Select, LoadedExactly, PagesNested, OpenLazy, LoadAll, Answer, AllOk, After;
    assert src.env == EnvOf(input);
    WrittenFileOpens(body, page, input);
    LazyRefinesEager(src, Root(input), qs);
  }

  /** What the writer makes meets every condition the exact result about lazy queries asks of a file. */
  lemma WrittenFileIsTidy(body: Body, page: Page, input: CopcInput, src: Source)
    requires body.Valid() && body.Wrote(page, input) && WithinReaderLimits(body, page)
    requires Sum(Counts(body.nodes)) == body.points
    requires src.env == EnvOf(input) && src.numberOfPoints == body.points
    ensures LoadAll(src.env, Root(input)).Ok?
    ensures var loaded := LoadAll(src.env, Root(input)).value;
      Tidy(src.env, Root(input), loaded.fetched) && Openable(src, Eager(Root(input), loaded.fetched, loaded.hierarchy))
  {
    hide NodesFit, NodeEntries, Packed, WroteHierarchy, TreeBytes, LoadAll, Stands, PlanOf, Section, EntriesAccepted, HoldsTree,
      WithinReaderLimits, LoadedExactly, PagesNested, OpenHierarchy, Tidy, Openable, Body.Valid;
    WrittenFileOpens(body, page, input);
    OpenedIsOpenable(input, src);
    WroteShape(body, page, input);
    AllAccepted(body, page, input);
    TreeStands(body.Entries(), page, input);
    WrittenTreeIsTidy(src.env, Placed(page, input.rootOffset));
  }

  lemma IndexAddsUp(index: LodIndex, source: seq<Vec3>, center: Vec3, halfsize: real, budget: nat)
    requires IndexOf(index, source, center, halfsize, budget)
    ensures Sum(Counts(index.nodes)) == |source|
  {
    hide TreeShape, CoveredOnce, Contained, AllInside;
  }
}
