/** Exactly which of the files this writer makes a lazy reader can read in one query for everything. */
module WrittenQueries {
  import opened Core
  import opened Voxel
  import opened Codec
  import opened HierarchyPages
  import opened PagePlan
  import opened PageLayout
  import opened Hierarchy
  import opened LodShape
  import opened ChunkRanges
  import opened ChunkWriter
  import opened Loader
  import Sorting
  import opened LoaderFacts
  import opened Selection
  import opened RangeReader
  import opened RoundTrip
  import opened HierarchyFile
  import opened LazyEager
  import opened LazyRuns
  import opened LazyReady
  import opened LazyRounds
  import opened LazyQueries
  import opened WriteOpen

  // The pages of a planned tree, depth by depth -----------------------------

  ghost function ChildPages(items: seq<Item>): seq<Page> {
    if items == [] then []
    else
      var n := |items| - 1;
      ChildPages(items[..n]) + (if items[n].ChildItem? then [items[n].page] else [])
  }

  ghost function NextDepth(pages: seq<Page>): seq<Page> {
    if pages == [] then [] else NextDepth(pages[..|pages| - 1]) + ChildPages(pages[|pages| - 1].items)
  }

  /** The pages `n` levels below the root page, in the order of their parents' items. */
  ghost function DepthPages(root: Page, n: nat): seq<Page> {
    if n == 0 then [root] else NextDepth(DepthPages(root, n - 1))
  }

  /** At most one page, or a first page that has children. */
  ghost predicate DepthPasses(pages: seq<Page>) {
    |pages| <= 1 || ChildPages(pages[0].items) != []
  }

  // Pages and the entries that list them ------------------------------------

  ghost predicate Peopled(page: Page) {
    forall e :: e in PointEntries(page) ==> e.HasPointData() && e.key.level <= 31
  }

  /** The entry lists the page, which stands in the file. */
  ghost predicate Lists(env: Env, e: PageEntry, page: Page) {
    exists at :: Stands(env, Placed(page, at)) && Peopled(page) && RangeOf(e) == PlacedRange(Placed(page, at)) && e.key == page.key
  }

  ghost predicate ListsAll(env: Env, es: seq<PageEntry>, pages: seq<Page>) {
    |es| == |pages| && forall i :: 0 <= i < |es| ==> Lists(env, es[i], pages[i])
  }

  lemma ListsAppend(env: Env, es: seq<PageEntry>, pages: seq<Page>, more: seq<PageEntry>, morePages: seq<Page>)
    requires ListsAll(env, es, pages) && ListsAll(env, more, morePages)
    ensures ListsAll(env, es + more, pages + morePages)
  {
    hide Lists;
  }

  lemma ChildPeopled(page: Page, i: nat)
    requires Peopled(page) && i < |page.items| && page.items[i].ChildItem?
    ensures Peopled(page.items[i].page)
  {
    hide ItemsEntries;
    EntryOfItem(page.items, i);
  }

  lemma RowLists(env: Env, q: Placed, i: nat)
    requires Stands(env, q) && Peopled(q.plan) && i < |q.plan.items|
    ensures q.plan.items[i].ChildItem? ==>
      Rows(q)[i].Valid() && Rows(q)[i].IsChildPage() && Lists(env, Rows(q)[i], q.plan.items[i].page)
    ensures q.plan.items[i].PointItem? ==> !Rows(q)[i].IsChildPage()
  {
    hide Stands, Rows, TreeBytes, EntryAccepted, Peopled, ItemAt;
    StandsRows(env, q);
    RowOf(env, q, i);
    if q.plan.items[i].ChildItem? {
      ChildStands(env, q, i);
      ChildPeopled(q.plan, i);
      ListsBy(env, Rows(q)[i], q.plan.items[i].page, ItemAt(q, i));
    }
  }

  lemma ListsBy(env: Env, e: PageEntry, page: Page, at: nat)
    requires Stands(env, Placed(page, at)) && Peopled(page) && RangeOf(e) == PlacedRange(Placed(page, at)) && e.key == page.key
    ensures Lists(env, e, page)
  {
  }

  lemma StandsRows(env: Env, q: Placed)
    requires Stands(env, q)
    ensures q.at + TreeBytes(q.plan) <= UINT64_MAX && Writable(Laid(q.plan, q.at), q.at) && InPlace(env, q) && |q.plan.items| > 0
  {
  }

  lemma NoneListed(env: Env)
    ensures forall rows: seq<Entry> :: ChildEntries(rows[..0]) == []
    ensures forall items: seq<Item> :: ChildPages(items[..0]) == []
    ensures ListsAll(env, [], [])
  {
  }

  /** One more row and item. */
  lemma ListsOneMore(env: Env, rows: seq<Entry>, items: seq<Item>, k: nat)
    requires k < |rows| == |items| && ListsAll(env, ChildEntries(rows[..k]), ChildPages(items[..k]))
    requires items[k].ChildItem? ==> rows[k].Valid() && rows[k].IsChildPage() && Lists(env, rows[k], items[k].page)
    requires items[k].PointItem? ==> !rows[k].IsChildPage()
    ensures ListsAll(env, ChildEntries(rows[..k + 1]), ChildPages(items[..k + 1]))
  {
    hide Lists, Entry.Valid;
    assert rows[..k + 1][..k] == rows[..k] && items[..k + 1][..k] == items[..k];
  }

  lemma {:induction false} RowsListChildren(env: Env, q: Placed, n: nat)
    requires Stands(env, q) && Peopled(q.plan) && n <= |q.plan.items|
    ensures q.at + TreeBytes(q.plan) <= UINT64_MAX && Writable(Laid(q.plan, q.at), q.at)
    ensures ListsAll(env, ChildEntries(Rows(q)[..n]), ChildPages(q.plan.items[..n]))
  {
    hide Stands, Rows, TreeBytes, Peopled, Lists, Writable, Laid, Entry.Valid, ChildEntries, ChildPages, ListsAll;
    StandsRows(env, q);
    if n == 0 {
      NoneListed(env);
    } else {
      RowsListChildren(env, q, n - 1);
      RowLists(env, q, n - 1);
      ListsOneMore(env, Rows(q), q.plan.items, n - 1);
    }
  }

  /** A listed page's child-page entries list its child pages in order. */
  lemma PageListsChildren(env: Env, r: ByteRange, q: Placed)
    requires Stands(env, q) && Peopled(q.plan) && r == PlacedRange(q)
    ensures ListsAll(env, PageChildren(env, r), ChildPages(q.plan.items))
    ensures HasChild(env, r) <==> ChildPages(q.plan.items) != []
  {
    hide Stands, Rows, TreeBytes, Peopled, Lists, Writable, Laid, ChildEntries, ChildPages, PageAt, HasChild;
    StandsRows(env, q);
    PageReadsBack(env, q);
    RowsListChildren(env, q, |q.plan.items|);
    assert Rows(q)[..|q.plan.items|] == Rows(q);
    assert q.plan.items[..|q.plan.items|] == q.plan.items;
    ChildKeepsPending(env, r);
  }

  lemma EntryListsChildren(env: Env, e: PageEntry, page: Page)
    requires Lists(env, e, page)
    ensures ListsAll(env, PageChildren(env, RangeOf(e)), ChildPages(page.items))
    ensures HasChild(env, RangeOf(e)) <==> ChildPages(page.items) != []
  {
    hide Stands, Peopled, ListsAll, PageChildren, ChildPages, HasChild;
    var at :| Stands(env, Placed(page, at)) && Peopled(page) && RangeOf(e) == PlacedRange(Placed(page, at)) && e.key == page.key;
    PageListsChildren(env, RangeOf(e), Placed(page, at));
  }

  lemma {:induction false} RoundListsNext(env: Env, es: seq<PageEntry>, pages: seq<Page>)
    requires ListsAll(env, es, pages)
    ensures ListsAll(env, RoundChildren(env, es), NextDepth(pages))
  {
    hide Lists, PageChildren, ChildPages;
    if es != [] {
      var n := |es| - 1;
      RoundListsNext(env, es[..n], pages[..n]);
      EntryListsChildren(env, es[n], pages[n]);
      ListsAppend(env, RoundChildren(env, es[..n]), NextDepth(pages[..n]), PageChildren(env, RangeOf(es[n])), ChildPages(pages[n].items));
    }
  }

  // Every page leads to points ----------------------------------------------

  lemma {:induction false} ReachesBelow(env: Env, r: ByteRange, c: PageEntry, t: ByteRange, n: nat)
    requires OnPage(env, r, c) && Reaches(env, RangeOf(c), t, n)
    ensures Reaches(env, r, t, n + 1)
    decreases n
  {
    hide OnPage;
    if n == 0 {
      ReachesSelf(env, r);
      ReachesOn(env, r, r, 0, c);
    } else {
      var q, d :| Reaches(env, RangeOf(c), q, n - 1) && OnPage(env, q, d) && d.Valid() && d.IsChildPage() && RangeOf(d) == t;
      ReachesBelow(env, r, c, q, n - 1);
      ReachesOn(env, r, q, n, d);
    }
  }

  lemma LeadsFromChild(env: Env, r: ByteRange, c: PageEntry)
    requires OnPage(env, r, c) && LeadsToPoints(env, RangeOf(c))
    ensures LeadsToPoints(env, r)
  {
    hide OnPage, Reaches, HasPoints;
    var t, n: nat :| Reaches(env, RangeOf(c), t, n) && HasPoints(env, t);
    ReachesBelow(env, r, c, t, n);
  }

  lemma {:induction false} TreeLeads(env: Env, q: Placed)
    requires Stands(env, q) && Peopled(q.plan)
    ensures LeadsToPoints(env, PlacedRange(q))
    ensures q.plan.key.Valid() && q.plan.key.level <= 31
    decreases q.plan
  {
    hide Stands, Rows, TreeBytes, Writable, Laid, ItemAt, LeadsToPoints, Under, InPlace, PageAt, EntryAccepted, VoxelKey.Valid;
    StandsRows(env, q);
    PageReadsBack(env, q);
    RowOf(env, q, 0);
    assert OnPage(env, PlacedRange(q), Rows(q)[0]);
    FirstBelow(env, q);
    if q.plan.items[0].ChildItem? {
      ChildStands(env, q, 0);
      ChildPeopled(q.plan, 0);
      TreeLeads(env, Placed(q.plan.items[0].page, ItemAt(q, 0)));
      LeadsFromChild(env, PlacedRange(q), Rows(q)[0]);
    } else {
      EntryOfItem(q.plan.items, 0);
      ReachesSelf(env, PlacedRange(q));
      PointsAhead(env, PlacedRange(q), PlacedRange(q), 0);
    }
  }

  lemma FirstBelow(env: Env, q: Placed)
    requires Stands(env, q)
    ensures |q.plan.items| > 0 && q.plan.key.Valid() && ItemKey(q.plan.items[0]).Valid()
    ensures q.plan.key.level <= ItemKey(q.plan.items[0]).level
  {
    hide Image, Writable, Laid, TreeBytes, EntriesAccepted;
    assert ItemBelow(q.plan.items[0], q.plan.key);
  }

  lemma ListedLeads(env: Env, e: PageEntry, page: Page)
    requires Lists(env, e, page)
    ensures LeadsToPoints(env, RangeOf(e)) && e.key.level <= 31
  {
    hide Stands, Peopled, LeadsToPoints;
    var at :| Stands(env, Placed(page, at)) && Peopled(page) && RangeOf(e) == PlacedRange(Placed(page, at)) && e.key == page.key;
    TreeLeads(env, Placed(page, at));
  }

  // One depth and one round -------------------------------------------------

  lemma AllInReach(env: Env, info: CopcInfo, es: seq<PageEntry>, pages: seq<Page>)
    requires ListsAll(env, es, pages)
    ensures LevelRange(EVERYTHING.lod).Ok?
    ensures Relevant(es, info, EVERYTHING, true) == es && Relevant(es, info, EVERYTHING, false) == []
  {
    hide Lists, LeadsToPoints, PageMayMatch, Relevant;
    forall e | e in es ensures PageMayMatch(e.key, info, EVERYTHING) {
      var i :| 0 <= i < |es| && es[i] == e;
      ListedLeads(env, es[i], pages[i]);
      EverythingReached(e.key, info);
    }
    AllReached(es, info, EVERYTHING);
  }

  lemma RoundIsDepth(env: Env, es: seq<PageEntry>, pages: seq<Page>)
    requires ListsAll(env, es, pages)
    ensures RoundPasses(env, [], es) <==> DepthPasses(pages)
  {
    hide Lists, LeadsToPoints, HasChild, ChildPages;
    if es != [] {
      EntryListsChildren(env, es[0], pages[0]);
      if |es| > 1 {
        ListedLeads(env, es[1], pages[1]);
        assert es[1..][0] == es[1] && es[1] in es[1..];
      }
    }
  }

  lemma {:induction false} FrontierIsDepth(env: Env, info: CopcInfo, root: Page, es: seq<PageEntry>, n: nat)
    requires ListsAll(env, es, DepthPages(root, 1))
    ensures LevelRange(EVERYTHING.lod).Ok?
    ensures ListsAll(env, Frontier(env, info, EVERYTHING, es, n), DepthPages(root, n + 1))
    ensures FrontierPasses(env, info, EVERYTHING, Frontier(env, info, EVERYTHING, es, n)) <==> DepthPasses(DepthPages(root, n + 1))
    decreases n
  {
    hide ListsAll, DepthPasses, Relevant, RoundPasses, RoundChildren, NextDepth, Frontier;
    if n == 0 {
      StartsAt(env, info, es);
    } else {
      FrontierIsDepth(env, info, root, es, n - 1);
      var last := Frontier(env, info, EVERYTHING, es, n - 1);
      FrontierLater(env, info, EVERYTHING, es, n - 1);
      AllInReach(env, info, last, DepthPages(root, n));
      RoundListsNext(env, last, DepthPages(root, n));
      assert Frontier(env, info, EVERYTHING, es, n) == RoundChildren(env, last);
    }
    var now := Frontier(env, info, EVERYTHING, es, n);
    AllInReach(env, info, now, DepthPages(root, n + 1));
    RoundIsDepth(env, now, DepthPages(root, n + 1));
  }

  lemma StartsAt(env: Env, info: CopcInfo, es: seq<PageEntry>)
    ensures LevelRange(EVERYTHING.lod).Ok? && Frontier(env, info, EVERYTHING, es, 0) == es
  {
  }

  lemma OneDepth(root: Page)
    ensures DepthPages(root, 1) == ChildPages(root.items)
  {
    assert DepthPages(root, 0) == [root] && [root][..0] == [] && NextDepth([]) == [];
    assert NextDepth([root]) == ChildPages(root.items);
  }

  // The first full query ----------------------------------------------------

  ghost predicate EveryDepthPasses(page: Page) {
    forall n: nat :: DepthPasses(DepthPages(page, n))
  }

  /** The root is alone at its depth. */
  lemma RootDepthPasses(page: Page)
    ensures DepthPages(page, 0) == [page] && DepthPasses(DepthPages(page, 0))
  {
  }

  lemma DepthsBelowRoot(env: Env, info: CopcInfo, page: Page, first: seq<PageEntry>)
    requires ListsAll(env, first, DepthPages(page, 1)) && LevelRange(EVERYTHING.lod).Ok?
    ensures QueryPasses(env, info, EVERYTHING, first) <==> EveryDepthPasses(page)
  {
    hide FrontierPasses, Frontier, DepthPasses, DepthPages, LevelRange, ListsAll;
    forall n: nat
      ensures FrontierPasses(env, info, EVERYTHING, Frontier(env, info, EVERYTHING, first, n)) <==> DepthPasses(DepthPages(page, n + 1))
    {
      FrontierIsDepth(env, info, page, first, n);
    }
    RootDepthPasses(page);
    if QueryPasses(env, info, EVERYTHING, first) {
      forall n: nat ensures DepthPasses(DepthPages(page, n)) {
        if n > 0 {
          assert FrontierPasses(env, info, EVERYTHING, Frontier(env, info, EVERYTHING, first, n - 1));
        }
      }
    }
  }

  /** The root page of a written file stands, and every entry of its tree holds points. */
  lemma WrittenStands(body: Body, page: Page, input: CopcInput)
    requires body.Valid() && body.Wrote(page, input) && WithinReaderLimits(body, page)
    ensures input.evlrOffset + input.evlrLen <= UINT64_MAX
    ensures Stands(EnvOf(input), Placed(page, input.rootOffset)) && PlacedRange(Placed(page, input.rootOffset)) == Root(input)
    ensures Peopled(page)
  {
    hide NodesFit, NodeEntries, Packed, WroteHierarchy, TreeBytes, Stands, PlanOf, Section, EntriesAccepted, HoldsTree, WithinReaderLimits,
      GoodNodes, NeverEmpty, Storable, PointEntries;
    WroteShape(body, page, input);
    AllAccepted(body, page, input);
    EntriesStorable(body.laz, body.nodes, |body.prefix| + 8);
    TreeStands(body.Entries(), page, input);
    StorablePeople(body.Entries(), page);
  }

  lemma StorablePeople(entries: seq<Entry>, page: Page)
    requires Storable(entries) && (forall e :: e in entries ==> e.HasPointData())
    requires multiset(PointEntries(page)) == multiset(entries)
    ensures Peopled(page)
  {
    hide PointEntries, Entry.Valid, DistinctEntryKeys;
    Sorting.PermutationMembers(PointEntries(page), entries);
  }

  /**
   On a written file the first query for everything succeeds exactly when, at every depth of the page tree below the
   root, there is at most one page or the first page has child pages.
   */
  lemma WrittenFullQueryExactly(body: Body, page: Page, input: CopcInput, src: Source)
    requires body.Valid() && body.Wrote(page, input) && WithinReaderLimits(body, page)
    requires Sum(Counts(body.nodes)) == body.points
    requires src.env == EnvOf(input) && src.numberOfPoints == body.points
    ensures OpenLazy(src, Root(input)).ok
    ensures HierarchyFor(src, OpenLazy(src, Root(input)).state, EVERYTHING).1.Ok? <==> EveryDepthPasses(page)
  {
    hide Body.Valid, Body.Wrote, WithinReaderLimits, Stands, OpenLazy, HierarchyFor, QueryPasses, EveryDepthPasses, DepthPages,
      OpensAsTree, FrontierAfter, AllOk, After, PageChildren, LevelRange, Peopled, ListsAll;
    WrittenStands(body, page, input);
    var at := Placed(page, input.rootOffset);
    WrittenOpensAsTree(body, page, input, src);
    NoQueries(src, OpenLazy(src, Root(input)).state, PageChildren(src.env, Root(input)));
    LazyQueryOkExactly(input, src, [], EVERYTHING);
    EverythingAccepted();
    PageListsChildren(src.env, Root(input), at);
    OneDepth(page);
    DepthsBelowRoot(src.env, src.info, page, PageChildren(src.env, Root(input)));
  }

  lemma NoQueries(src: Source, st: LazyState, pending: seq<PageEntry>)
    ensures AllOk(src, st, []) && After(src, st, []) == st && FrontierAfter(src.env, src.info, [], pending) == pending
  {
  }

  lemma WrittenOpensAsTree(body: Body, page: Page, input: CopcInput, src: Source)
    requires body.Valid() && body.Wrote(page, input) && WithinReaderLimits(body, page)
    requires Sum(Counts(body.nodes)) == body.points
    requires src.env == EnvOf(input) && src.numberOfPoints == body.points
    ensures OpensAsTree(input, src)
  {
    hide Body.Valid, WithinReaderLimits, OpenHierarchy, LoadAll, Tidy, Openable, LoadedExactly, PagesNested, WroteHierarchy, Section;
    WrittenFileOpens(body, page, input);
    WrittenFileIsTidy(body, page, input, src);
  }

  /** So a written root page with two child pages, the first a leaf, is one the first query for everything fails on. */
  lemma LeafFirstFails(body: Body, page: Page, input: CopcInput, src: Source)
    requires body.Valid() && body.Wrote(page, input) && WithinReaderLimits(body, page)
    requires Sum(Counts(body.nodes)) == body.points
    requires src.env == EnvOf(input) && src.numberOfPoints == body.points
    requires |ChildPages(page.items)| >= 2 && ChildPages(ChildPages(page.items)[0].items) == []
    ensures OpenLazy(src, Root(input)).ok && HierarchyFor(src, OpenLazy(src, Root(input)).state, EVERYTHING).1.Err?
  {
    hide Body.Valid, Body.Wrote, WithinReaderLimits, OpenLazy, HierarchyFor, DepthPages, ChildPages;
    WrittenFullQueryExactly(body, page, input, src);
    OneDepth(page);
    assert !DepthPasses(DepthPages(page, 1));
  }
}
