/** The writer does not enforce the reader's chunk limit: files of one node, and one the reader refuses. */
module OneNodeFiles {
  import opened Core
  import opened Voxel
  import opened Codec
  import opened Hierarchy
  import opened HierarchyPages
  import opened PagePlan
  import opened PageLayout
  import opened LodShape
  import opened ChunkWriter
  import opened Loader
  import opened HierarchyFile
  import opened WriteOpen
  import opened OpenLimits

  ghost function RootNode(count: nat): LodNodeRange {
    LodNodeRange(ROOT, 0, count)
  }

  /** What the writer can finish a file of one node with. */
  ghost predicate OneNode(body: Body, count: nat) {
    && |body.prefix| <= UINT32_MAX && NeverEmpty(body.laz) && body.nodes == [RootNode(count)] && body.trailer == []
    && 1 <= count <= INT32_MAX && body.points == count
    && body.laz.encode(RootNode(count)).Ok? && |body.laz.Chunk(RootNode(count))| <= INT32_MAX
    && |body.laz.table(TableRows(body.laz, body.nodes))| <= UINT32_MAX
    && |body.evlrHeader(HIERARCHY_ENTRY_BYTES)| == LAS_EVLR_HEADER_BYTES
  }

  lemma OneNodeFits(body: Body, count: nat)
    requires OneNode(body, count)
    ensures body.Valid() && body.Fits() && body.EvlrStart() <= |body.prefix| + 8 + INT32_MAX + UINT32_MAX
    ensures body.Entries() == [Entry(ROOT, |body.prefix| + 8, |body.laz.Chunk(RootNode(count))|, count)]
    ensures Storable(body.Entries())
    ensures Sum(Counts(body.nodes)) == count
  {
    hide NeverEmpty, VoxelKey.Valid, Laz.Chunk, ToLe;
    RootIsValid();
    var nodes, at := body.nodes, |body.prefix| + 8;
    NoNodes(body.laz, at);
    assert nodes[..0] == [];
    OneMoreNode(body.laz, nodes, 0, at);
    assert nodes[..1] == nodes;
    EntriesStorable(body.laz, nodes, at);
    assert Counts(nodes)[..0] == [] && Counts(nodes) == [count];
  }

  lemma OneItemBytes(entry: Entry)
    ensures TreeBytes(Page(ROOT, [PointItem(entry)], 0, 0)) == HIERARCHY_ENTRY_BYTES
  {
    var items: seq<Item> := [PointItem(entry)];
    assert items[..0] == [] && ItemsBytes(items[..0]) == 0;
    assert ItemsBytes(items) == ItemBytes(items[0]) == 0;
  }

  /** The file the writer finishes for one node. */
  lemma OneNodeWrote(body: Body, count: nat) returns (page: Page, input: CopcInput)
    requires OneNode(body, count)
    ensures body.Valid() && body.Wrote(page, input) && TreeBytes(page) == HIERARCHY_ENTRY_BYTES
    ensures |input.bytes| <= |body.prefix| + INT32_MAX + UINT32_MAX + 100 && input.offsetToPointData == |body.prefix|
  {
    hide NodesFit, NodeEntries, Packed, Section, PlanOf, TreeBytes, Writable, Image, Laid, Storable, Laz.Chunk, NeverEmpty, GoodNodes, AllUnder,
      Plannable, DistinctEntryKeys;
    OneNodeFits(body, count);
    var entries := body.Entries();
    page := Page(ROOT, [PointItem(entries[0])], 0, 0);
    OneItemBytes(entries[0]);
    StorablePlans(entries);
    StorableDistinct(entries);
    LeafPlan(page, entries, ROOT);
    var root := body.RootOffset();
    PlanWritable(page, entries, root);
    LaidKeepsEntries(page, root);
    var bytes := body.Front() + body.evlrHeader(HIERARCHY_ENTRY_BYTES) + Image(Laid(page, root), root);
    assert bytes[..|bytes|] == bytes && bytes + [] == bytes;
    input := CopcInput(bytes, |body.prefix|, body.EvlrStart(), count, root, HIERARCHY_ENTRY_BYTES, root, HIERARCHY_ENTRY_BYTES);
  }

  /** Every one-node file the writer finishes opens exactly when its chunk has at most 512 MiB. */
  lemma OneNodeOpensExactly(body: Body, count: nat) returns (page: Page, input: CopcInput)
    requires OneNode(body, count)
    ensures body.Valid() && body.Wrote(page, input)
    ensures |input.bytes| <= |body.prefix| + INT32_MAX + UINT32_MAX + 100 && input.offsetToPointData == |body.prefix|
    ensures OpenHierarchy(input).Ok? <==> |body.laz.Chunk(RootNode(count))| <= 536870912
  {
    hide OpenHierarchy, TreeBytes, Body.Wrote, Body.Valid, Laz.Chunk, NeverEmpty, Sum;
    OneNodeFits(body, count);
    page, input := OneNodeWrote(body, count);
    WrittenFileOpensExactly(body, page, input);
    assert RootNode(count) in body.nodes;
  }

  /** A file the writer finishes and the reader refuses: one node whose chunk is one byte over the limit. */
  lemma OversizedChunkIsRefused(prefix: seq<byte>, chunk: seq<byte>, count: nat)
    returns (body: Body, page: Page, input: CopcInput)
    requires |prefix| <= UINT32_MAX && |chunk| == 536870913 && 1 <= count <= INT32_MAX
    ensures body.prefix == prefix && body.Valid() && body.Wrote(page, input) && OpenHierarchy(input).Err?
  {
    hide OpenHierarchy, Body.Wrote, Body.Valid;
    var laz := Laz(_ => Ok([]), _ => chunk, _ => []);
    body := Body(prefix, laz, [RootNode(count)], _ => seq(LAS_EVLR_HEADER_BYTES, _ => 0), [], count);
    assert laz.Chunk(RootNode(count)) == chunk;
    page, input := OneNodeOpensExactly(body, count);
  }
}
