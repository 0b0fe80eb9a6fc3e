/** Page trees the writer lays out keep every page's entries under the key it is listed at. */
module WrittenTrees {
  import opened Core
  import opened Voxel
  import opened Codec
  import opened Hierarchy
  import opened HierarchyPages
  import opened Loader
  import opened LoaderFacts
  import opened RangeReader
  import opened LazyEager
  import opened RoundTrip

  /** The range is that of a page of a written tree. */
  ghost predicate IsStanding(env: Env, r: ByteRange) {
    exists q :: Stands(env, q) && PlacedRange(q) == r
  }

  /** What a child-page entry on a standing page points at. */
  lemma ChildOnStanding(env: Env, q: Placed, c: PageEntry) returns (child: Placed)
    requires Stands(env, q) && OnPage(env, PlacedRange(q), c)
    ensures Stands(env, child) && PlacedRange(child) == RangeOf(c) && child.plan.key == c.key
  {
    hide Stands, EntryAccepted;
    StandsFits(env, q);
    PageReadsBack(env, q);
    var k :| 0 <= k < |Rows(q)| && Rows(q)[k] == c;
    RowOf(env, q, k);
    ChildStands(env, q, k);
    child := Placed(q.plan.items[k].page, ItemAt(q, k));
  }

  lemma StandsFits(env: Env, q: Placed)
    requires Stands(env, q)
    ensures InPlace(env, q) && q.at + TreeBytes(q.plan) <= UINT64_MAX && Writable(Laid(q.plan, q.at), q.at) && q.plan.key.Valid()
  {
  }

  /** The entries on a standing page lie under its key. */
  lemma EntryOnStanding(env: Env, q: Placed, e: Entry)
    requires Stands(env, q) && OnPage(env, PlacedRange(q), e)
    ensures q.plan.key.Valid() && e.Valid() && Under(q.plan.key, e.key)
  {
    hide Stands, Under, TreeBytes;
    StandsFits(env, q);
    PageReadsBack(env, q);
    var k :| 0 <= k < |Rows(q)| && Rows(q)[k] == e;
    RowOf(env, q, k);
    ItemUnder(env, q, k);
  }

  lemma ItemUnder(env: Env, q: Placed, k: nat)
    requires Stands(env, q) && k < |q.plan.items|
    ensures ItemBelow(q.plan.items[k], q.plan.key)
  {
    hide EntriesAccepted, Writable, Image, Laid, TreeBytes, Under;
  }

  lemma {:induction false} FetchedStands(env: Env, p: Placed, pages: seq<ByteRange>, i: nat)
    requires Stands(env, p) && Connected(env, PlacedRange(p), pages) && i < |pages|
    ensures IsStanding(env, pages[i])
    decreases i
  {
    hide Stands, OnPage;
    if i > 0 {
      assert PointedAt(env, pages, i, pages[i]);
      var j, c :| 0 <= j < i && j < |pages| && OnPage(env, pages[j], c) && c.Valid() && c.IsChildPage() && RangeOf(c) == pages[i];
      FetchedStands(env, p, pages, j);
      var q :| Stands(env, q) && PlacedRange(q) == pages[j];
      var child := ChildOnStanding(env, q, c);
    }
  }

  /** The planner establishes what lazy pruning relies on. */
  lemma WrittenTreeNests(env: Env, p: Placed)
    requires Stands(env, p) && LoadAll(env, PlacedRange(p)).Ok?
    ensures PagesNested(env, LoadAll(env, PlacedRange(p)).value.fetched)
  {
    hide Stands, LoadAll, Holds, Connected, OnPage, Under;
    LoadAllComplete(env, PlacedRange(p));
    var pages := LoadAll(env, PlacedRange(p)).value.fetched;
    forall r, c, e | r in pages && OnPage(env, r, c) && c.Valid() && c.IsChildPage() && OnPage(env, RangeOf(c), e)
      ensures e.Valid() && Under(c.key, e.key)
    {
      var i :| 0 <= i < |pages| && pages[i] == r;
      FetchedStands(env, p, pages, i);
      var q :| Stands(env, q) && PlacedRange(q) == r;
      var child := ChildOnStanding(env, q, c);
      EntryOnStanding(env, child, e);
    }
  }
}
