/** A whole hierarchy written as an EVLR and opened again (copc-writer/src/writer.rs, copc-reader/src/lib.rs). */
module HierarchyFile {
  import opened Core
  import opened Voxel
  import opened Codec
  import opened Sorting
  import opened Hierarchy
  import opened HierarchyPages
  import opened PagePlan
  import opened PageLayout
  import opened ChunkRanges
  import opened Loader
  import opened LoaderFacts
  import opened RoundTrip
  import opened WrittenTrees
  import opened LazyEager

  const LAS_EVLR_HEADER_BYTES := 60

  /** Entries a hierarchy can hold: valid, for chunks or empty voxels, at distinct keys the planner's shift covers. */
  ghost predicate Storable(entries: seq<Entry>) {
    && (forall e :: e in entries ==> e.Valid() && !e.IsChildPage() && e.key.level <= 31)
    && DistinctEntryKeys(entries)
  }

  lemma StorablePlans(entries: seq<Entry>)
    requires Storable(entries)
    ensures Plannable(entries) && ROOT.Valid() && AllUnder(entries, ROOT)
  {
    hide Under, VoxelKey.Valid, DistinctEntryKeys;
    RootIsValid();
    forall i | 0 <= i < |entries| ensures entries[i].key.Valid() && entries[i].key.level <= 31 && Under(ROOT, entries[i].key) {
      assert entries[i] in entries;
      RootCovers(entries[i].key);
    }
  }

  lemma RootIsValid()
    ensures ROOT.Valid()
  {
  }

  // Writing -----------------------------------------------------------------

  ghost predicate HierarchyFits(before: nat, evlrHeader: nat -> seq<byte>, page: Page) {
    && before + LAS_EVLR_HEADER_BYTES + TreeBytes(page) <= UINT64_MAX
    && |evlrHeader(TreeBytes(page))| == LAS_EVLR_HEADER_BYTES
  }

  /** The hierarchy EVLR of the entries, planned as `page`, follows the bytes `before`. */
  ghost predicate WroteHierarchy(before: seq<byte>, entries: seq<Entry>, evlrHeader: nat -> seq<byte>, page: Page, after: seq<byte>) {
    var root := |before| + LAS_EVLR_HEADER_BYTES;
    && PlanOf(page, entries, ROOT) && HierarchyFits(|before|, evlrHeader, page)
    && Writable(Laid(page, root), root)
    && after == before + evlrHeader(TreeBytes(page)) + Image(Laid(page, root), root)
  }

  lemma PlanWritable(page: Page, entries: seq<Entry>, at: nat)
    requires Storable(entries) && PlanOf(page, entries, ROOT) && at + TreeBytes(page) <= UINT64_MAX
    ensures Writable(Laid(page, at), at) && Laid(page, at).byteSize == HIERARCHY_ENTRY_BYTES * |page.items|
  {
    hide Writable, TreeBytes, DistinctEntryKeys;
    PermutationMembers(PointEntries(page), entries);
    LaidWritable(page, at);
  }

  /**
   Plans the entries, assigns offsets after the EVLR header, and writes both; returns the root's offset and size and the
   size of the whole tree. Fails only without an entry or past the 64-bit offsets.
   */
  method WriteHierarchy(out: Output, entries: seq<Entry>, evlrHeader: nat -> seq<byte>)
    returns (r: Result<(uint64, uint64, uint64)>, ghost page: Page)
    requires Storable(entries)
    modifies out
    ensures r.Ok? ==> WroteHierarchy(old(out.bytes), entries, evlrHeader, page, out.bytes) && Canonical(page, entries)
    ensures r.Ok? ==> r.value == (|old(out.bytes)| + LAS_EVLR_HEADER_BYTES, HIERARCHY_ENTRY_BYTES * |page.items|, TreeBytes(page))
    ensures r.Err? ==> entries == [] || |old(out.bytes)| + LAS_EVLR_HEADER_BYTES > UINT64_MAX
                       || (PlanOf(page, entries, ROOT) && !HierarchyFits(|old(out.bytes)|, evlrHeader, page))
  {
    hide Laid, Image, Writable, PlanOf, TreeBytes, AllUnder, Plannable, Storable, Canonical;
    page := Page(ROOT, [], 0, 0);
    if |out.bytes| + LAS_EVLR_HEADER_BYTES > UINT64_MAX {
      return Err(InvalidInput), page;
    }
    var root: uint64 := |out.bytes| + LAS_EVLR_HEADER_BYTES;
    StorablePlans(entries);
    StorableDistinct(entries);
    var plan := PlanHierarchyPages(entries, ROOT);
    if plan.Err? {
      return Err(plan.error), page;
    }
    page := plan.value;
    var placed := AssignOffsets(plan.value, root);
    if placed.Err? {
      return Err(placed.error), page;
    }
    var (laid, end) := placed.value;
    out.bytes := out.bytes + evlrHeader(end - root);
    if |out.bytes| != root {
      return Err(InvalidInput), page;
    }
    PlanWritable(plan.value, entries, root);
    var written := WritePageTree(out, laid);
    assert written.Ok?;
    return Ok((root, laid.byteSize, end - root)), page;
  }

  lemma StorableDistinct(entries: seq<Entry>)
    requires Storable(entries)
    ensures DistinctEntryKeys(entries)
  {
  }

  // Opening -----------------------------------------------------------------

  ghost function EnvOf(input: CopcInput): Env
    requires input.evlrOffset + input.evlrLen <= UINT64_MAX
  {
    Env(input.bytes, DataRanges(input.offsetToPointData, input.offsetToFirstEvlr, input.evlrOffset, input.evlrOffset + input.evlrLen))
  }

  /** The file's header points at the tree, and the tree is there. */
  ghost predicate HoldsTree(input: CopcInput, page: Page) {
    && input.rootOffset == input.evlrOffset && input.rootSize == HIERARCHY_ENTRY_BYTES * |page.items|
    && input.evlrLen == TreeBytes(page) && input.evlrOffset + input.evlrLen <= UINT64_MAX
    && InPlace(EnvOf(input), Placed(page, input.rootOffset))
  }

  /** What was written is what a header naming its place points at. */
  lemma WrittenIsHeld(before: seq<byte>, entries: seq<Entry>, evlrHeader: nat -> seq<byte>, page: Page, after: seq<byte>,
    trailer: seq<byte>, input: CopcInput)
    requires WroteHierarchy(before, entries, evlrHeader, page, after) && input.bytes == after + trailer
    requires input.rootOffset == input.evlrOffset == |before| + LAS_EVLR_HEADER_BYTES
    requires input.rootSize == HIERARCHY_ENTRY_BYTES * |page.items| && input.evlrLen == TreeBytes(page)
    ensures HoldsTree(input, page)
  {
    hide Planned, Writable, Image, PointEntries, Laid, TreeBytes;
    var root := |before| + LAS_EVLR_HEADER_BYTES;
    LaidKeepsEntries(page, root);
    var image := Image(Laid(page, root), root);
    var front := before + evlrHeader(TreeBytes(page));
    SliceOfBack(front, image);
    SliceOfFront(after, trailer, root, root + TreeBytes(page));
  }

  lemma PageIsSmall(page: Page, entries: seq<Entry>)
    requires PlanOf(page, entries, ROOT)
    ensures HIERARCHY_ENTRY_BYTES * |page.items| <= MAX_HIERARCHY_PAGE_BYTES
    ensures HIERARCHY_ENTRY_BYTES * |page.items| <= TreeBytes(page)
  {
    hide ItemsBytes, PointEntries;
  }

  lemma TreeStands(entries: seq<Entry>, page: Page, input: CopcInput)
    requires PlanOf(page, entries, ROOT) && HoldsTree(input, page) && EntriesAccepted(EnvOf(input), entries)
    ensures Stands(EnvOf(input), Placed(page, input.rootOffset)) && PlacedRange(Placed(page, input.rootOffset)) == Root(input)
    ensures multiset(PointEntries(page)) == multiset(entries)
  {
    hide Planned, InPlace, TreeBytes, EntryAccepted, PointEntries;
    PermutationMembers(PointEntries(page), entries);
  }

  /**
   The page-tree round trip for any entries: a file that holds the planned tree of valid entries at distinct keys opens
   when its chunks are accepted and disjoint and add up, and then holds exactly those entries, with child-page entries
   only at keys that have none.
   */
  lemma HierarchyOpens(entries: seq<Entry>, page: Page, input: CopcInput)
    requires Storable(entries) && PlanOf(page, entries, ROOT) && HoldsTree(input, page)
    requires input.offsetToPointData <= input.offsetToFirstEvlr
    requires EntriesAccepted(EnvOf(input), entries) && TreeBytes(page) <= MAX_HIERARCHY_TOTAL_BYTES
    requires AllDisjoint(entries) && EntriesPoints(entries) == input.numberOfPoints
    ensures OpenHierarchy(input).Ok?
    ensures LoadedExactly(OpenHierarchy(input).value.hierarchy, entries)
    ensures PagesNested(EnvOf(input), OpenHierarchy(input).value.fetched)
    ensures LoadAll(EnvOf(input), Root(input)) == OpenHierarchy(input)
  {
    hide InPlace, TreeBytes, PointEntries, EntryAccepted, LoadAll, Stands, PlanOf, WholeAccepted, LoadedExactly, Connected, AllDisjoint,
      DistinctEntryKeys, PagesNested, EntriesAccepted;
    var env, root := EnvOf(input), Placed(page, input.rootOffset);
    TreeStands(entries, page, input);
    TreeLoadsBack(env, root, entries);
    WrittenTreeNests(env, root);
    LoadAllComplete(env, Root(input));
    ExactIsAccepted(env, LoadAll(env, Root(input)).value.hierarchy, entries, input.numberOfPoints);
    PageIsSmall(page, entries);
  }

  /** The same, straight from what the writer wrote. */
  lemma WrittenHierarchyOpens(before: seq<byte>, entries: seq<Entry>, evlrHeader: nat -> seq<byte>, page: Page, after: seq<byte>,
    trailer: seq<byte>, input: CopcInput)
    requires Storable(entries) && WroteHierarchy(before, entries, evlrHeader, page, after) && input.bytes == after + trailer
    requires input.rootOffset == input.evlrOffset == |before| + LAS_EVLR_HEADER_BYTES
    requires input.rootSize == HIERARCHY_ENTRY_BYTES * |page.items| && input.evlrLen == TreeBytes(page)
    requires input.offsetToPointData <= input.offsetToFirstEvlr
    requires EntriesAccepted(EnvOf(input), entries) && TreeBytes(page) <= MAX_HIERARCHY_TOTAL_BYTES
    requires AllDisjoint(entries) && EntriesPoints(entries) == input.numberOfPoints
    ensures OpenHierarchy(input).Ok? && LoadedExactly(OpenHierarchy(input).value.hierarchy, entries)
  {
    hide InPlace, TreeBytes, EntryAccepted, EntriesAccepted, AllDisjoint, LoadedExactly, OpenHierarchy, PlanOf, Writable, Image, Laid, HoldsTree,
      Storable, PagesNested, LoadAll;
    WrittenIsHeld(before, entries, evlrHeader, page, after, trailer, input);
    HierarchyOpens(entries, page, input);
  }
}
