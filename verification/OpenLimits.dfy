/** The limits under which a written file opens are exact. */
module OpenLimits {
  import opened Core
  import opened Voxel
  import opened Codec
  import opened Hierarchy
  import opened HierarchyPages
  import opened PageLayout
  import opened PagePlan
  import opened LodShape
  import opened ChunkRanges
  import opened ChunkWriter
  import opened Loader
  import opened LoaderFacts
  import Sorting
  import opened RoundTrip
  import opened LazyEager
  import opened LazyReady
  import opened HierarchyFile
  import opened WriteOpen

  /** The row written for each item. */
  lemma ItemRow(env: Env, p: Placed, i: nat)
    requires InPlace(env, p) && i < |p.plan.items|
    ensures OnPage(env, PlacedRange(p), Rows(p)[i])
    ensures p.plan.items[i].PointItem? ==> Rows(p)[i] == p.plan.items[i].entry
    ensures p.plan.items[i].ChildItem? ==>
      && Rows(p)[i].Valid() && Rows(p)[i].IsChildPage()
      && RangeOf(Rows(p)[i]) == PlacedRange(Placed(p.plan.items[i].page, ItemAt(p, i)))
  {
    hide Image, ItemsImage, ItemsWritable, Under, ItemsBytes, LaidItems;
    PageReadsBack(env, p);
    LaidItemsAt(p.plan.items, p.at + HIERARCHY_ENTRY_BYTES * |p.plan.items|, i);
    if p.plan.items[i].ChildItem? {
      LaidChild(p, i);
    }
  }

  /** A finished load has fetched every page of the tree, so every point entry in it was accepted. */
  lemma {:induction false} TreeAccepted(env: Env, root: ByteRange, fetched: seq<ByteRange>, h: EntryMap, p: Placed)
    requires Complete(env, root, fetched, h) && InPlace(env, p) && PlacedRange(p) in fetched
    ensures forall e :: e in PointEntries(p.plan) ==> EntryAccepted(env, e)
    decreases p.plan
  {
    hide InPlace, OnPage, EntryAccepted, ItemsEntries, ItemAt, Connected, Stored;
    forall e | e in PointEntries(p.plan) ensures EntryAccepted(env, e) {
      EntryCases(p.plan.items, e);
      var i :| 0 <= i < |p.plan.items| && e in ItemEntries(p.plan.items[i]);
      InPlaceFits(env, p);
      ItemRow(env, p, i);
      if p.plan.items[i].ChildItem? {
        ChildInPlace(env, p, i);
        TreeAccepted(env, root, fetched, h, Placed(p.plan.items[i].page, ItemAt(p, i)));
      }
    }
  }

  lemma InPlaceFits(env: Env, p: Placed)
    requires InPlace(env, p)
    ensures p.at + TreeBytes(p.plan) <= UINT64_MAX && Writable(Laid(p.plan, p.at), p.at) && |p.plan.items| > 0
  {
  }

  // The bytes of the tree ---------------------------------------------------

  ghost function PageRanges(pages: seq<Page>): (s: seq<ByteRange>)
    ensures |s| == |pages|
  {
    seq(|pages|, i requires 0 <= i < |pages| => ByteRange(pages[i].offset, pages[i].byteSize))
  }

  /** Pages that tile a stretch have distinct ranges adding up to it. */
  lemma {:induction false} TilesAddUp(pages: seq<Page>, lo: nat, hi: nat)
    requires PagesTile(pages, lo, hi) && forall g :: g in pages ==> g.byteSize > 0
    ensures NoRepeat(PageRanges(pages)) && lo + SeqBytes(PageRanges(pages)) == hi
    ensures forall r :: r in PageRanges(pages) ==> r.offset < hi
  {
    if pages != [] {
      var n := |pages| - 1;
      var last := pages[n];
      assert forall g :: g in pages[..n] ==> g in pages;
      assert last in pages;
      TilesAddUp(pages[..n], lo, last.offset);
      var ranges := PageRanges(pages);
      assert ranges[..n] == PageRanges(pages[..n]);
      assert ranges == PageRanges(pages[..n]) + [ranges[n]];
      NoRepeatAppend(PageRanges(pages[..n]), [ranges[n]]);
    }
  }

  lemma {:induction false} PageOfItems(items: seq<Item>, g: Page)
    requires g in ItemsPreOrder(items)
    ensures exists i :: 0 <= i < |items| && g in ItemPreOrder(items[i])
  {
    hide ItemPreOrder;
    var n := |items| - 1;
    if g in ItemsPreOrder(items[..n]) {
      PageOfItems(items[..n], g);
      var i :| 0 <= i < n && g in ItemPreOrder(items[..n][i]);
      assert g in ItemPreOrder(items[i]);
    } else {
      assert g in ItemPreOrder(items[n]);
    }
  }

  lemma PreOrderCases(page: Page, g: Page)
    requires g in PreOrder(page)
    ensures g == page || exists i :: 0 <= i < |page.items| && page.items[i].ChildItem? && g in PreOrder(page.items[i].page)
  {
    hide PreOrder;
    PreOrderParts(page);
    if g != page {
      assert g in ItemsPreOrder(page.items);
      PageOfItems(page.items, g);
      var i :| 0 <= i < |page.items| && g in ItemPreOrder(page.items[i]);
      ItemPreOrderIs(page.items[i]);
    }
  }

  lemma PreOrderParts(page: Page)
    ensures PreOrder(page) == [page] + ItemsPreOrder(page.items)
  {
  }

  lemma ItemPreOrderIs(item: Item)
    ensures ItemPreOrder(item) == if item.ChildItem? then PreOrder(item.page) else []
  {
  }

  /** Every page of the laid-out tree has been fetched. */
  lemma {:induction false} TreeFetched(env: Env, root: ByteRange, fetched: seq<ByteRange>, h: EntryMap, p: Placed, g: Page)
    requires Complete(env, root, fetched, h) && InPlace(env, p) && PlacedRange(p) in fetched
    requires p.at + TreeBytes(p.plan) <= UINT64_MAX && g in PreOrder(Laid(p.plan, p.at))
    ensures ByteRange(g.offset, g.byteSize) in fetched && g.byteSize > 0
    decreases p.plan
  {
    hide InPlace, OnPage, PreOrder, ItemsPreOrder, ItemAt, Connected, Holds, LaidItems, ItemsBytes;
    var laid := Laid(p.plan, p.at);
    InPlaceFits(env, p);
    PreOrderCases(laid, g);
    if g != laid {
      var i :| 0 <= i < |laid.items| && laid.items[i].ChildItem? && g in PreOrder(laid.items[i].page);
      var next := p.at + HIERARCHY_ENTRY_BYTES * |p.plan.items|;
      LaidItemsAt(p.plan.items, next, i);
      LaidChild(p, i);
      ItemRow(env, p, i);
      ChildInPlace(env, p, i);
      TreeFetched(env, root, fetched, h, Placed(p.plan.items[i].page, ItemAt(p, i)), g);
    }
  }

  /** A loaded tree has no more bytes than the budget. */
  lemma TreeWithinBudget(env: Env, p: Placed)
    requires InPlace(env, p) && LoadAll(env, PlacedRange(p)).Ok?
    ensures TreeBytes(p.plan) <= MAX_HIERARCHY_TOTAL_BYTES
    ensures forall e :: e in PointEntries(p.plan) ==> EntryAccepted(env, e)
  {
    hide InPlace, LoadAll, Holds, PreOrder, PageRanges, TreeBytes, Laid, EntryAccepted, PointedAt;
    var st := LoadAll(env, PlacedRange(p)).value;
    LoadAllComplete(env, PlacedRange(p));
    LoadAllReadable(env, PlacedRange(p));
    assert st.fetched[0] == PlacedRange(p);
    TreeAccepted(env, PlacedRange(p), st.fetched, st.hierarchy, p);
    InPlaceFits(env, p);
    var pages := PreOrder(Laid(p.plan, p.at));
    LaidTiles(p.plan, p.at);
    forall g | g in pages ensures ByteRange(g.offset, g.byteSize) in st.fetched && g.byteSize > 0 {
      TreeFetched(env, PlacedRange(p), st.fetched, st.hierarchy, p, g);
    }
    TilesAddUp(pages, p.at, p.at + TreeBytes(p.plan));
    RangesFrom(pages, st.fetched);
    SeqBytesSubset(PageRanges(pages), st.fetched);
  }

  lemma RangesFrom(pages: seq<Page>, fetched: seq<ByteRange>)
    requires forall g :: g in pages ==> ByteRange(g.offset, g.byteSize) in fetched
    ensures forall r :: r in PageRanges(pages) ==> r in fetched
  {
    forall r | r in PageRanges(pages) ensures r in fetched {
      var i :| 0 <= i < |pages| && PageRanges(pages)[i] == r;
      assert pages[i] in pages;
    }
  }

  // Exactly when a hierarchy opens ------------------------------------------

  /** What the reader asks of a hierarchy beyond its pages: accepted, disjoint entries that add up, within the budget. */
  ghost predicate Acceptable(entries: seq<Entry>, page: Page, input: CopcInput)
    requires input.evlrOffset + input.evlrLen <= UINT64_MAX
  {
    && EntriesAccepted(EnvOf(input), entries) && TreeBytes(page) <= MAX_HIERARCHY_TOTAL_BYTES
    && AllDisjoint(entries) && EntriesPoints(entries) == input.numberOfPoints
  }

  lemma EntriesOfPlan(entries: seq<Entry>, page: Page, env: Env)
    requires Storable(entries) && PlanOf(page, entries, ROOT)
    requires forall e :: e in PointEntries(page) ==> EntryAccepted(env, e)
    ensures EntriesAccepted(env, entries)
  {
    hide Planned, PointEntries, EntryAccepted, DistinctEntryKeys, Entry.Valid;
    Sorting.PermutationMembers(PointEntries(page), entries);
  }

  lemma LoadedDisjoint(h: EntryMap, entries: seq<Entry>)
    requires LoadedExactly(h, entries) && MapDisjoint(h) && DistinctEntryKeys(entries)
    ensures AllDisjoint(entries)
  {
    forall i, j | 0 <= i < j < |entries| && entries[i].HasPointData() && entries[j].HasPointData()
      ensures ChunksDisjoint(entries[i], entries[j])
    {
      assert entries[i] in entries && entries[j] in entries;
    }
  }

  lemma OpenLoads(input: CopcInput)
    requires input.evlrOffset + input.evlrLen <= UINT64_MAX && OpenHierarchy(input).Ok?
    ensures LoadAll(EnvOf(input), Root(input)) == OpenHierarchy(input)
  {
    hide LoadAll, WholeAccepted;
  }

  /** A file holding the planned tree of any storable entries opens exactly when those entries are acceptable. */
  lemma HierarchyOpensExactly(entries: seq<Entry>, page: Page, input: CopcInput)
    requires Storable(entries) && PlanOf(page, entries, ROOT) && HoldsTree(input, page)
    requires input.offsetToPointData <= input.offsetToFirstEvlr
    ensures OpenHierarchy(input).Ok? <==> Acceptable(entries, page, input)
  {
    hide Storable, PlanOf, InPlace, TreeBytes, OpenHierarchy, LoadAll, EntriesAccepted, AllDisjoint, EntriesPoints, LoadedExactly, PointEntries,
      MapDisjoint, MapSum, Stands, PagesNested, EntryAccepted;
    if Acceptable(entries, page, input) {
      HierarchyOpens(entries, page, input);
    }
    if OpenHierarchy(input).Ok? {
      var env, p := EnvOf(input), Placed(page, input.rootOffset);
      OpenLoads(input);
      assert PlacedRange(p) == Root(input);
      TreeWithinBudget(env, p);
      EntriesOfPlan(entries, page, env);
      TreeStands(entries, page, input);
      TreeLoadsBack(env, p, entries);
      OpenIsSafe(input);
      StorableDistinct(entries);
      var h := OpenHierarchy(input).value.hierarchy;
      LoadedDisjoint(h, entries);
      LoadedSum(h, entries);
    }
  }

  lemma LoadedSum(h: EntryMap, entries: seq<Entry>)
    requires LoadedExactly(h, entries) && DistinctEntryKeys(entries)
    ensures MapSum(h, PointsOf) == EntriesPoints(entries)
  {
    hide MapSum, EntriesPoints, HasKey;
    NoStrayPoints(h, entries);
    ExactSum(h, entries);
  }

  /** An accepted entry of a node means its chunk is within the reader's limit. */
  lemma ChunkWithinLimit(body: Body, page: Page, input: CopcInput, i: nat)
    requires body.Valid() && body.Wrote(page, input) && i < |body.nodes|
    requires input.evlrOffset + input.evlrLen <= UINT64_MAX && EntriesAccepted(EnvOf(input), body.Entries())
    ensures |body.laz.Chunk(body.nodes[i])| <= MAX_POINT_CHUNK_BYTES
  {
    hide NodesFit, NodeEntries, Packed, WroteHierarchy, Section, TreeBytes, InFile;
    EntriesValid(body.laz, body.nodes, |body.prefix| + 8);
    EntryAt(body.laz, body.nodes, |body.prefix| + 8, i);
    assert body.Entries()[i] in body.Entries();
  }

  /** A finished file opens exactly when it stays within the reader's two size limits. */
  lemma WrittenFileOpensExactly(body: Body, page: Page, input: CopcInput)
    requires body.Valid() && body.Wrote(page, input) && Sum(Counts(body.nodes)) == body.points
    ensures OpenHierarchy(input).Ok? <==> WithinReaderLimits(body, page)
  {
    hide NodesFit, NodeEntries, Packed, WroteHierarchy, Section, OpenHierarchy, LoadAll, TreeBytes, EntriesAccepted, AllDisjoint, EntriesPoints,
      PlanOf, HoldsTree, Storable, Laz.Chunk, Sum, NeverEmpty, GoodNodes;
    if WithinReaderLimits(body, page) {
      WrittenFileOpens(body, page, input);
    }
    if OpenHierarchy(input).Ok? {
      WroteShape(body, page, input);
      EntriesStorable(body.laz, body.nodes, |body.prefix| + 8);
      HierarchyOpensExactly(body.Entries(), page, input);
      forall n | n in body.nodes ensures |body.laz.Chunk(n)| <= MAX_POINT_CHUNK_BYTES {
        var i :| 0 <= i < |body.nodes| && body.nodes[i] == n;
        ChunkWithinLimit(body, page, input, i);
      }
    }
  }
}
