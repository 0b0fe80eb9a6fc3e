/** Page trees the writer lays out are tidy: keys and pages are pointed at once, from above. */
module WrittenTidy {
  import opened Core
  import opened Voxel
  import opened Codec
  import opened Hierarchy
  import opened HierarchyPages
  import opened Loader
  import opened LoaderFacts
  import opened RangeReader
  import opened LazyEager
  import opened LazyReady
  import opened RoundTrip
  import opened WrittenTrees

  ghost predicate IsKid(p: Placed, k: int) {
    0 <= k < |p.plan.items| && p.plan.items[k].ChildItem?
  }

  ghost function Kid(p: Placed, k: int): Placed
    requires IsKid(p, k)
  {
    Placed(p.plan.items[k].page, ItemAt(p, k))
  }

  /** Page `q` is page `p` or below it. */
  ghost predicate InTree(p: Placed, q: Placed)
    decreases p.plan
  {
    q == p || exists k :: 0 <= k < |p.plan.items| && IsKid(p, k) && InTree(Placed(p.plan.items[k].page, ItemAt(p, k)), q)
  }

  ghost predicate Via(p: Placed, k: int, q: Placed) {
    IsKid(p, k) && InTree(Kid(p, k), q)
  }

  lemma InTreeVia(p: Placed, q: Placed)
    ensures InTree(p, q) <==> q == p || exists k :: Via(p, k, q)
  {
    if k :| Via(p, k, q) {
      assert IsKid(p, k) && InTree(Placed(p.plan.items[k].page, ItemAt(p, k)), q);
    }
    if InTree(p, q) && q != p {
      var k :| 0 <= k < |p.plan.items| && IsKid(p, k) && InTree(Placed(p.plan.items[k].page, ItemAt(p, k)), q);
      assert Via(p, k, q);
    }
  }

  // Places and keys ---------------------------------------------------------

  /** The tree of `c` lies inside the tree of `p`. */
  ghost predicate Inside(env: Env, p: Placed, c: Placed) {
    && Stands(env, c) && c.plan.key.Valid() && p.plan.key.Valid() && Under(p.plan.key, c.plan.key)
    && p.at <= c.at < c.at + TreeBytes(c.plan) <= p.at + TreeBytes(p.plan)
  }

  lemma KidInside(env: Env, p: Placed, k: int)
    requires Stands(env, p) && IsKid(p, k)
    ensures Inside(env, p, Kid(p, k)) && p.at < Kid(p, k).at
    ensures Kid(p, k).plan.key.level == p.plan.key.level + 1
  {
    hide Image, Writable, Laid, EntriesAccepted, TreeBytes, ItemsBytes, ItemAt, Under;
    ChildStands(env, p, k);
    TreeBytesPositive(p);
    TreeBytesPositive(Kid(p, k));
    assert ItemBelow(p.plan.items[k], p.plan.key);
  }

  lemma StandsKey(env: Env, p: Placed)
    requires Stands(env, p)
    ensures Planned(p.plan) && p.plan.key.Valid() && TreeBytes(p.plan) > 0 && Inside(env, p, p)
  {
    hide Image, Writable, Laid, EntriesAccepted, TreeBytes, Under;
    TreeBytesPositive(p);
    UnderReflexive(p.plan.key);
  }

  lemma {:induction false} TreeInside(env: Env, p: Placed, q: Placed)
    requires Stands(env, p) && InTree(p, q)
    ensures Inside(env, p, q)
    decreases p.plan
  {
    hide Stands, InTree, Under, TreeBytes, ItemAt;
    InTreeVia(p, q);
    if q == p {
      StandsKey(env, p);
    } else {
      var k :| Via(p, k, q);
      KidInside(env, p, k);
      TreeInside(env, Kid(p, k), q);
      UnderTransitive(p.plan.key, Kid(p, k).plan.key, q.plan.key);
    }
  }

  lemma KidsApart(env: Env, p: Placed, i: int, j: int)
    requires Stands(env, p) && IsKid(p, i) && IsKid(p, j) && i != j
    ensures PairApart(Kid(p, i), Kid(p, j))
  {
    hide Image, Writable, Laid, EntriesAccepted, TreeBytes, ItemsBytes, Under, Planned;
    ItemBytesIs(p.plan.items[i]);
    ItemBytesIs(p.plan.items[j]);
    if i < j {
      ItemAtOrder(p, i, j);
      SiblingsIncomparable(env, p, Kid(p, i), i, Kid(p, j), j);
    } else {
      ItemAtOrder(p, j, i);
      SiblingsIncomparable(env, p, Kid(p, j), j, Kid(p, i), i);
    }
  }

  /** Trees inside separate trees are separate. */
  lemma InsideApart(env: Env, a: Placed, b: Placed, q: Placed, r: Placed)
    requires PairApart(a, b) && Inside(env, a, q) && Inside(env, b, r)
    ensures PairApart(q, r)
  {
    hide Stands, TreeBytes, Under, VoxelKey.Valid;
    if Under(q.plan.key, r.plan.key) {
      UnderTransitive(a.plan.key, q.plan.key, r.plan.key);
      Comparable(a.plan.key, b.plan.key, r.plan.key);
    }
    if Under(r.plan.key, q.plan.key) {
      UnderTransitive(b.plan.key, r.plan.key, q.plan.key);
      Comparable(a.plan.key, b.plan.key, q.plan.key);
    }
  }

  lemma Comparable(a: VoxelKey, b: VoxelKey, key: VoxelKey)
    requires a.Valid() && b.Valid() && key.Valid() && Under(a, key) && Under(b, key)
    ensures Under(a, b) || Under(b, a)
  {
    hide Under;
    if a.level <= b.level {
      AncestorsNest(a, b, key);
    } else {
      AncestorsNest(b, a, key);
    }
  }

  /** Two pages of a tree are the same, apart, or one is below the other. */
  lemma {:induction false} Related(env: Env, p: Placed, q: Placed, r: Placed)
    requires Stands(env, p) && InTree(p, q) && InTree(p, r)
    ensures q == r || PairApart(q, r) || (exists k :: Via(q, k, r)) || (exists k :: Via(r, k, q))
    decreases p.plan
  {
    hide Stands, InTree, PairApart, Inside;
    InTreeVia(p, q);
    InTreeVia(p, r);
    if q != p && r != p {
      var i :| Via(p, i, q);
      var j :| Via(p, j, r);
      KidInside(env, p, i);
      KidInside(env, p, j);
      assert Stands(env, Kid(p, i)) && Stands(env, Kid(p, j)) by {
        InsideStands(env, p, Kid(p, i));
        InsideStands(env, p, Kid(p, j));
      }
      if i == j {
        Related(env, Kid(p, i), q, r);
      } else {
        KidsApart(env, p, i, j);
        TreeInside(env, Kid(p, i), q);
        TreeInside(env, Kid(p, j), r);
        InsideApart(env, Kid(p, i), Kid(p, j), q, r);
      }
    }
  }

  lemma InsideStands(env: Env, p: Placed, c: Placed)
    requires Inside(env, p, c)
    ensures Stands(env, c)
  {
  }

  lemma {:induction false} KidInTree(p: Placed, q: Placed, k: int)
    requires InTree(p, q) && IsKid(q, k)
    ensures InTree(p, Kid(q, k))
    decreases p.plan
  {
    hide InTree, ItemAt;
    InTreeVia(p, q);
    InTreeVia(p, Kid(q, k));
    if q == p {
      InTreeVia(Kid(p, k), Kid(p, k));
      assert Via(p, k, Kid(p, k));
    } else {
      var i :| Via(p, i, q);
      KidInTree(Kid(p, i), q, k);
      assert Via(p, i, Kid(q, k));
    }
  }

  // Entries on the pages ----------------------------------------------------

  /** The item an entry of a standing page was written for. */
  lemma RowItem(env: Env, q: Placed, e: Entry) returns (a: nat)
    requires Stands(env, q) && OnPage(env, PlacedRange(q), e)
    ensures a < |q.plan.items| && e == RowEntryAt(env, q, a) && e.key == ItemKey(q.plan.items[a])
    ensures q.plan.key.Valid() && ItemBelow(q.plan.items[a], q.plan.key)
    ensures q.plan.items[a].PointItem? ==> !e.IsChildPage()
    ensures q.plan.items[a].ChildItem? ==> e.Valid() && e.IsChildPage() && RangeOf(e) == PlacedRange(Kid(q, a))
  {
    hide Stands, EntryAccepted, TreeBytes, ItemBelow;
    StandsFits(env, q);
    PageReadsBack(env, q);
    a :| 0 <= a < |Rows(q)| && Rows(q)[a] == e;
    RowOf(env, q, a);
    ItemUnder(env, q, a);
  }

  ghost function RowEntryAt(env: Env, q: Placed, a: nat): Entry
    requires Stands(env, q) && a < |q.plan.items|
  {
    Rows(q)[a]
  }

  lemma RowsDistinct(env: Env, q: Placed)
    requires Stands(env, q)
    ensures PageAt(env, PlacedRange(q)).Ok? && DistinctEntryKeys(PageAt(env, PlacedRange(q)).value)
  {
    hide EntryAccepted, Image, Writable, Laid, TreeBytes, Rows, EntriesAccepted;
    PageReadsBack(env, q);
    var rows := Rows(q);
    forall i, j | 0 <= i < j < |rows| ensures rows[i].key != rows[j].key {
      RowOf(env, q, i);
      RowOf(env, q, j);
    }
  }

  /** What planning says about the items of a page that has a child page at `m`. */
  lemma BesideChild(env: Env, q: Placed, m: int, a: nat)
    requires Stands(env, q) && IsKid(q, m) && a < |q.plan.items|
    ensures q.plan.items[a].PointItem? ==> ItemKey(q.plan.items[a]) == q.plan.key
    ensures q.plan.items[a].ChildItem? ==> ItemKey(q.plan.items[a]).level == q.plan.key.level + 1
    ensures a != m ==> ItemKey(q.plan.items[a]) != Kid(q, m).plan.key
  {
    hide Image, Writable, Laid, EntriesAccepted, TreeBytes, Under;
  }

  lemma LeafOrOwn(env: Env, q: Placed, a: nat)
    requires Stands(env, q) && a < |q.plan.items| && q.plan.items[a].ChildItem?
    ensures ItemKey(q.plan.items[a]).level == q.plan.key.level + 1
  {
    hide Image, Writable, Laid, EntriesAccepted, TreeBytes, Under;
  }

  /** A key listed both on a page and on one below it: the upper entry points at the lower page, which replaces it. */
  lemma ClashBelow(env: Env, q: Placed, m: int, r: Placed, d: Entry, e: Entry)
    requires Stands(env, q) && Via(q, m, r)
    requires OnPage(env, PlacedRange(q), d) && Stands(env, r) && OnPage(env, PlacedRange(r), e) && d.key == e.key
    ensures Replaces(d, PlacedRange(r), e)
  {
    hide Stands, InTree, OnPage, TreeBytes, ItemAt, Under, VoxelKey.Valid;
    var a := RowItem(env, q, d);
    var b := RowItem(env, r, e);
    var c := Kid(q, m);
    KidInside(env, q, m);
    TreeInside(env, c, r);
    BesideChild(env, q, m, a);
    UnderTransitive(c.plan.key, r.plan.key, e.key);
    LevelsUnder(c.plan.key, e.key);
    if q.plan.items[a].ChildItem? {
      UnderAntisymmetric(c.plan.key, e.key);
      LevelsUnder(c.plan.key, r.plan.key);
      LevelsUnder(r.plan.key, e.key);
      UnderAntisymmetric(c.plan.key, r.plan.key);
      SamePageByKey(env, c, r);
      if r.plan.items[b].ChildItem? {
        LeafOrOwn(env, r, b);
      }
    }
  }

  lemma LevelsUnder(a: VoxelKey, b: VoxelKey)
    requires a.Valid() && b.Valid() && Under(a, b)
    ensures a.level <= b.level
  {
  }

  /** Below a page, keys are strictly deeper than its own. */
  lemma SamePageByKey(env: Env, c: Placed, r: Placed)
    requires Stands(env, c) && InTree(c, r) && r.plan.key.level == c.plan.key.level
    ensures r == c
  {
    hide Stands, InTree, TreeBytes, ItemAt, Under;
    InTreeVia(c, r);
    if r != c {
      var k :| Via(c, k, r);
      KidInside(env, c, k);
      TreeInside(env, Kid(c, k), r);
      LevelsUnder(Kid(c, k).plan.key, r.plan.key);
    }
  }

  lemma ClashApart(env: Env, q: Placed, r: Placed, d: Entry, e: Entry)
    requires Stands(env, q) && Stands(env, r) && PairApart(q, r)
    requires OnPage(env, PlacedRange(q), d) && OnPage(env, PlacedRange(r), e)
    ensures d.key != e.key
  {
    hide Stands, OnPage, TreeBytes, Under;
    var a := RowItem(env, q, d);
    var b := RowItem(env, r, e);
    if d.key == e.key {
      Comparable(q.plan.key, r.plan.key, e.key);
    }
  }

  lemma KeysClash(env: Env, p: Placed, q: Placed, r: Placed, d: Entry, e: Entry)
    requires Stands(env, p) && InTree(p, q) && InTree(p, r) && PlacedRange(q) != PlacedRange(r)
    requires OnPage(env, PlacedRange(q), d) && OnPage(env, PlacedRange(r), e) && d.key == e.key
    ensures Replaces(d, PlacedRange(r), e) || Replaces(e, PlacedRange(q), d)
  {
    hide Stands, InTree, OnPage, PairApart, Replaces, TreeBytes, Under, Inside;
    Related(env, p, q, r);
    TreeInside(env, p, q);
    TreeInside(env, p, r);
    InsideStands(env, p, q);
    InsideStands(env, p, r);
    if PairApart(q, r) {
      ClashApart(env, q, r, d, e);
    } else if k :| Via(q, k, r) {
      ClashBelow(env, q, k, r, d, e);
    } else {
      var k :| Via(r, k, q);
      ClashBelow(env, r, k, q, e, d);
    }
  }

  // Targets -----------------------------------------------------------------

  /** Two child entries pointing at one place are the same entry. */
  lemma KidsMeet(env: Env, p: Placed, q: Placed, a: int, r: Placed, b: int)
    requires Stands(env, p) && InTree(p, q) && InTree(p, r) && IsKid(q, a) && IsKid(r, b)
    requires Kid(q, a).at == Kid(r, b).at
    ensures q == r && a == b
  {
    hide Stands, InTree, TreeBytes, ItemAt, Under, Incomparable;
    Related(env, p, q, r);
    TreeInside(env, p, q);
    TreeInside(env, p, r);
    KidInside(env, q, a);
    KidInside(env, r, b);
    if q == r {
      if a != b {
        KidsApart(env, q, a, b);
      }
    } else if k :| Via(q, k, r) {
      KidBelow(env, q, a, k, r, b);
    } else if k :| Via(r, k, q) {
      KidBelow(env, r, b, k, q, a);
    }
  }

  lemma KidBelow(env: Env, q: Placed, a: int, k: int, r: Placed, b: int)
    requires Stands(env, q) && Via(q, k, r) && IsKid(q, a) && Stands(env, r) && IsKid(r, b)
    ensures Kid(q, a).at != Kid(r, b).at
  {
    hide Stands, InTree, TreeBytes, ItemAt, Under, Incomparable;
    KidInside(env, q, k);
    KidInside(env, q, a);
    KidInside(env, r, b);
    TreeInside(env, Kid(q, k), r);
    if a != k {
      KidsApart(env, q, a, k);
    }
  }

  lemma {:induction false} FetchedInTree(env: Env, p: Placed, pages: seq<ByteRange>, i: nat) returns (q: Placed)
    requires Stands(env, p) && Connected(env, PlacedRange(p), pages) && i < |pages|
    ensures InTree(p, q) && Stands(env, q) && PlacedRange(q) == pages[i]
    decreases i
  {
    hide Stands, OnPage, InTree, TreeBytes, ItemAt;
    if i == 0 {
      InTreeVia(p, p);
      q := p;
    } else {
      assert PointedAt(env, pages, i, pages[i]);
      var j, c :| 0 <= j < i && j < |pages| && OnPage(env, pages[j], c) && c.Valid() && c.IsChildPage() && RangeOf(c) == pages[i];
      var parent := FetchedInTree(env, p, pages, j);
      var a := RowItem(env, parent, c);
      KidInTree(p, parent, a);
      KidInside(env, parent, a);
      q := Kid(parent, a);
    }
  }

  lemma PageIn(env: Env, p: Placed, pages: seq<ByteRange>, r: ByteRange) returns (q: Placed)
    requires Stands(env, p) && Connected(env, PlacedRange(p), pages) && r in pages
    ensures InTree(p, q) && Stands(env, q) && PlacedRange(q) == r
  {
    hide Stands, Connected, InTree;
    var i :| 0 <= i < |pages| && pages[i] == r;
    q := FetchedInTree(env, p, pages, i);
  }

  lemma TargetsMeet(env: Env, p: Placed, q: Placed, r: Placed, c: Entry, d: Entry)
    requires Stands(env, p) && InTree(p, q) && InTree(p, r) && Stands(env, q) && Stands(env, r)
    requires OnPage(env, PlacedRange(q), c) && OnPage(env, PlacedRange(r), d) && SameTarget(c, d)
    ensures q == r && c == d
  {
    hide Stands, InTree, OnPage, TreeBytes, ItemAt, Under;
    var a := RowItem(env, q, c);
    var b := RowItem(env, r, d);
    KidsMeet(env, p, q, a, r, b);
  }

  lemma TargetBelow(env: Env, p: Placed, q: Placed, c: Entry)
    requires Stands(env, p) && InTree(p, q) && Stands(env, q)
    requires OnPage(env, PlacedRange(q), c) && c.Valid() && c.IsChildPage()
    ensures RangeOf(c) != PlacedRange(p)
  {
    hide Stands, InTree, OnPage, TreeBytes, ItemAt, Under;
    var a := RowItem(env, q, c);
    KidInside(env, q, a);
    TreeInside(env, p, q);
  }

  /** A written tree is tidy. */
  lemma WrittenTreeIsTidy(env: Env, p: Placed)
    requires Stands(env, p) && LoadAll(env, PlacedRange(p)).Ok?
    ensures Tidy(env, PlacedRange(p), LoadAll(env, PlacedRange(p)).value.fetched)
  {
    hide Stands, LoadAll, Holds, Connected, OnPage, InTree, Replaces, SameTarget, DistinctEntryKeys;
    LoadAllComplete(env, PlacedRange(p));
    var pages := LoadAll(env, PlacedRange(p)).value.fetched;
    forall r | r in pages ensures PageAt(env, r).Ok? && DistinctEntryKeys(PageAt(env, r).value) {
      var q := PageIn(env, p, pages, r);
      RowsDistinct(env, q);
    }
    forall s, r, d, e | s in pages && r in pages && s != r && OnPage(env, s, d) && OnPage(env, r, e) && d.key == e.key
      ensures Replaces(d, r, e) || Replaces(e, s, d)
    {
      var q := PageIn(env, p, pages, s);
      var t := PageIn(env, p, pages, r);
      KeysClash(env, p, q, t, d, e);
    }
    forall s, r, c, d | s in pages && r in pages && OnPage(env, s, c) && OnPage(env, r, d) && SameTarget(c, d)
      ensures s == r && c == d
    {
      var q := PageIn(env, p, pages, s);
      var t := PageIn(env, p, pages, r);
      TargetsMeet(env, p, q, t, c, d);
    }
    forall r, c | r in pages && OnPage(env, r, c) && c.Valid() && c.IsChildPage() ensures RangeOf(c) != PlacedRange(p) {
      var q := PageIn(env, p, pages, r);
      TargetBelow(env, p, q, c);
    }
  }
}
