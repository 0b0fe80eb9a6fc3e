/** Loading back a page tree the writer laid out: the writer and the eager reader agree. */
module RoundTrip {
  import opened Core
  import opened Voxel
  import opened Codec
  import opened Hierarchy
  import opened HierarchyPages
  import opened PagePlan
  import opened PageLayout
  import opened ChunkRanges
  import opened Loader
  import opened LoaderFacts

  /** A planned page and the file offset it is laid out at. */
  datatype Placed = Placed(plan: Page, at: nat)

  ghost predicate EntriesAccepted(env: Env, entries: seq<Entry>) {
    forall e :: e in entries ==> EntryAccepted(env, e) && !e.IsChildPage()
  }

  /** The file holds the tree's image, whatever its entries say. */
  ghost predicate InPlace(env: Env, p: Placed) {
    && Planned(p.plan)
    && p.at + TreeBytes(p.plan) <= UINT64_MAX && p.at + TreeBytes(p.plan) <= |env.bytes|
    && Writable(Laid(p.plan, p.at), p.at)
    && env.bytes[p.at..p.at + TreeBytes(p.plan)] == Image(Laid(p.plan, p.at), p.at)
  }

  /** The tree is in place inside the hierarchy section, and the reader accepts its entries. */
  ghost predicate Stands(env: Env, p: Placed) {
    && InPlace(env, p)
    && env.ranges.hierarchyStart <= p.at && p.at + TreeBytes(p.plan) <= env.ranges.hierarchyEnd
    && EntriesAccepted(env, PointEntries(p.plan))
  }

  function PlacedRange(p: Placed): (r: ByteRange) {
    ByteRange(p.at, HIERARCHY_ENTRY_BYTES * |p.plan.items|)
  }

  // Reading one page back ---------------------------------------------------

  /** The entries written for a placed page. */
  ghost function Rows(p: Placed): (rows: seq<Entry>)
    requires p.at + TreeBytes(p.plan) <= UINT64_MAX && Writable(Laid(p.plan, p.at), p.at)
    ensures |rows| == |p.plan.items|
  {
    RowEntries(Laid(p.plan, p.at).items)
  }

  lemma PageReadsBack(env: Env, p: Placed)
    requires InPlace(env, p)
    ensures PageAt(env, PlacedRange(p)) == Ok(Rows(p))
  {
    hide PageBytes, Image, ItemsImage, Planned, ItemsWritable, PageFromLe, LaidItems, ItemsBytes, RowEntries;
    var laid := Laid(p.plan, p.at);
    var own := HIERARCHY_ENTRY_BYTES * |p.plan.items|;
    ImageParts(laid, p.at);
    SliceOfSlice(env.bytes, p.at, p.at + TreeBytes(p.plan), 0, own);
    PageRoundTrip(Rows(p));
  }

  lemma ImageParts(page: Page, at: nat)
    requires Writable(page, at)
    ensures var own := HIERARCHY_ENTRY_BYTES * |page.items|;
      && own <= |Image(page, at)|
      && Image(page, at)[..own] == PageBytes(RowEntries(page.items))
      && Image(page, at)[own..] == ItemsImage(page.items, at + own)
  {
  }

  lemma ItemsImageStep(items: seq<Item>, at: nat)
    requires ItemsWritable(items, at) && items != []
    ensures var n := |items| - 1;
      && ItemsWritable(items[..n], at) && TreeWritable(items[n], at + ItemsBytes(items[..n]))
      && ItemsBytes(items) == ItemsBytes(items[..n]) + ItemBytes(items[n])
      && ItemsImage(items, at) == ItemsImage(items[..n], at) + ItemImage(items[n], at + ItemsBytes(items[..n]))
  {
  }

  lemma {:induction false} ItemsImageSlice(items: seq<Item>, at: nat, i: nat)
    requires ItemsWritable(items, at) && i < |items|
    ensures TreeWritable(items[i], at + ItemsBytes(items[..i]))
    ensures ItemsBytes(items[..i]) + ItemBytes(items[i]) <= ItemsBytes(items)
    ensures ItemsImage(items, at)[ItemsBytes(items[..i])..ItemsBytes(items[..i]) + ItemBytes(items[i])]
         == ItemImage(items[i], at + ItemsBytes(items[..i]))
    decreases |items|
  {
    hide ItemImage, TreeWritable, ItemsImage, ItemsWritable, ItemsBytes, ItemBytes;
    ItemsImageStep(items, at);
    var n := |items| - 1;
    if i < n {
      assert items[..n][..i] == items[..i];
      ItemsImageSlice(items[..n], at, i);
      var lo, hi := ItemsBytes(items[..i]), ItemsBytes(items[..i]) + ItemBytes(items[i]);
      SliceOfFront(ItemsImage(items[..n], at), ItemImage(items[n], at + ItemsBytes(items[..n])), lo, hi);
    } else {
      assert items[..n] == items[..i];
      SliceOfBack(ItemsImage(items[..n], at), ItemImage(items[n], at + ItemsBytes(items[..n])));
    }
  }

  /** A child's image is a slice of its page's image. */
  lemma ChildImage(page: Page, at: nat, i: nat)
    requires Writable(page, at) && i < |page.items| && page.items[i].ChildItem?
    ensures var lo := HIERARCHY_ENTRY_BYTES * |page.items| + ItemsBytes(page.items[..i]);
      && Writable(page.items[i].page, at + lo)
      && lo + TreeBytes(page.items[i].page) <= TreeBytes(page)
      && Image(page, at)[lo..lo + TreeBytes(page.items[i].page)] == Image(page.items[i].page, at + lo)
  {
    hide ItemsImage, ItemsWritable, ItemsBytes, RowEntries, PageBytes, Image;
    var own := HIERARCHY_ENTRY_BYTES * |page.items|;
    ImageParts(page, at);
    ItemsImageSlice(page.items, at + own, i);
    var lo, hi := ItemsBytes(page.items[..i]), ItemsBytes(page.items[..i]) + ItemBytes(page.items[i]);
    var image := Image(page, at);
    assert image[own..] == image[own..|image|];
    SliceOfSlice(image, own, |image|, lo, hi);
    ChildItemImage(page.items[i], at + own + lo);
  }

  lemma ChildItemImage(item: Item, at: nat)
    requires item.ChildItem? && TreeWritable(item, at)
    ensures Writable(item.page, at) && ItemImage(item, at) == Image(item.page, at) && ItemBytes(item) == TreeBytes(item.page)
  {
  }

  /** Where item `i` of a placed page is laid out. */
  ghost function ItemAt(p: Placed, i: nat): nat
    requires i < |p.plan.items|
  {
    p.at + HIERARCHY_ENTRY_BYTES * |p.plan.items| + ItemsBytes(p.plan.items[..i])
  }

  lemma {:induction false} LaidPrefixBytes(items: seq<Item>, next: nat, i: nat)
    requires next + ItemsBytes(items) <= UINT64_MAX && i <= |items|
    ensures ItemsBytes(LaidItems(items, next)[..i]) == ItemsBytes(items[..i])
    decreases |items|
  {
    var laid := LaidItems(items, next);
    if i < |items| {
      var n := |items| - 1;
      LaidPrefixBytes(items[..n], next, i);
      assert laid[..n] == LaidItems(items[..n], next);
      assert laid[..n][..i] == laid[..i] && items[..n][..i] == items[..i];
    } else {
      LaidItemsKeep(items, next);
      assert laid[..i] == laid && items[..i] == items;
    }
  }

  /** Laying a page out lays its children out where `ItemAt` says. */
  lemma LaidChild(p: Placed, i: nat)
    requires p.at + TreeBytes(p.plan) <= UINT64_MAX && i < |p.plan.items| && p.plan.items[i].ChildItem?
    ensures ItemAt(p, i) + TreeBytes(p.plan.items[i].page) <= p.at + TreeBytes(p.plan)
    ensures var laid := Laid(p.plan, p.at);
      && |laid.items| == |p.plan.items|
      && laid.items[i] == ChildItem(Laid(p.plan.items[i].page, ItemAt(p, i)))
      && ItemAt(p, i) == p.at + HIERARCHY_ENTRY_BYTES * |laid.items| + ItemsBytes(laid.items[..i])
      && TreeBytes(laid.items[i].page) == TreeBytes(p.plan.items[i].page)
  {
    hide LaidItems, ItemsBytes;
    var items := p.plan.items;
    var next := p.at + HIERARCHY_ENTRY_BYTES * |items|;
    LaidItemsAt(items, next, i);
    LaidPrefixBytes(items, next, i);
    LaidKeepsEntries(items[i].page, ItemAt(p, i));
    ItemFits(items, i);
  }

  lemma {:induction false} ItemFits(items: seq<Item>, i: nat)
    requires i < |items|
    ensures ItemsBytes(items[..i]) + ItemBytes(items[i]) <= ItemsBytes(items)
    decreases |items|
  {
    var n := |items| - 1;
    if i < n {
      assert items[..n][..i] == items[..i];
      ItemFits(items[..n], i);
    }
  }

  lemma ChildEntriesAccepted(env: Env, page: Page, i: nat)
    requires i < |page.items| && page.items[i].ChildItem? && EntriesAccepted(env, PointEntries(page))
    ensures EntriesAccepted(env, PointEntries(page.items[i].page))
  {
    hide EntryAccepted, ItemsEntries;
    EntryOfItem(page.items, i);
  }

  lemma ChildInPlace(env: Env, p: Placed, i: nat)
    requires InPlace(env, p) && i < |p.plan.items| && p.plan.items[i].ChildItem?
    ensures InPlace(env, Placed(p.plan.items[i].page, ItemAt(p, i)))
  {
    hide Under, ItemsImage, PageBytes, RowEntries, Laid, Writable, Image, TreeBytes, ItemsBytes;
    var laid := Laid(p.plan, p.at);
    LaidChild(p, i);
    ChildImage(laid, p.at, i);
    var child := p.plan.items[i].page;
    var lo := ItemAt(p, i) - p.at;
    SliceOfSlice(env.bytes, p.at, p.at + TreeBytes(p.plan), lo, lo + TreeBytes(child));
  }

  /** The child of a standing page stands where its entry says. */
  lemma ChildStands(env: Env, p: Placed, i: nat)
    requires Stands(env, p) && i < |p.plan.items| && p.plan.items[i].ChildItem?
    ensures Stands(env, Placed(p.plan.items[i].page, ItemAt(p, i)))
    ensures p.at + HIERARCHY_ENTRY_BYTES * |p.plan.items| <= ItemAt(p, i)
    ensures ItemAt(p, i) + TreeBytes(p.plan.items[i].page) <= p.at + TreeBytes(p.plan)
  {
    hide Under, EntryAccepted, RowEntries, Laid, Writable, Image, TreeBytes, ItemsBytes, EntriesAccepted, Planned;
    ChildInPlace(env, p, i);
    LaidChild(p, i);
    ChildEntriesAccepted(env, p.plan, i);
  }

  // The rows of a page ------------------------------------------------------

  /** The entry a placed page's item is written as. */
  lemma RowOf(env: Env, p: Placed, i: nat)
    requires Stands(env, p) && i < |p.plan.items|
    ensures Rows(p)[i].key == ItemKey(p.plan.items[i])
    ensures p.plan.items[i].PointItem? ==> Rows(p)[i] == p.plan.items[i].entry && !Rows(p)[i].IsChildPage()
    ensures p.plan.items[i].ChildItem? ==>
      && Rows(p)[i].Valid() && Rows(p)[i].IsChildPage()
      && RangeOf(Rows(p)[i]) == PlacedRange(Placed(p.plan.items[i].page, ItemAt(p, i)))
    ensures EntryAccepted(env, Rows(p)[i])
  {
    hide Image, ItemsImage, ItemsWritable, Under;
    var items := p.plan.items;
    var next := p.at + HIERARCHY_ENTRY_BYTES * |items|;
    LaidItemsAt(items, next, i);
    EntryOfItem(items, i);
    if items[i].ChildItem? {
      LaidChild(p, i);
      ChildStands(env, p, i);
    }
  }

  ghost predicate HasKey(entries: seq<Entry>, k: VoxelKey) {
    exists e :: e in entries && e.key == k
  }

  /** The entries are in the hierarchy; other keys keep their values. */
  ghost predicate Overlaid(h: EntryMap, entries: seq<Entry>, h': EntryMap) {
    && (forall e :: e in entries ==> e.key in h' && h'[e.key] == e)
    && (forall k :: k in h' && !HasKey(entries, k) ==> k in h && h'[k] == h[k])
    && (forall k :: k in h ==> k in h')
  }

  lemma OverlayStep(h: EntryMap, entries: seq<Entry>, e: Entry, h': EntryMap)
    requires Overlaid(h, entries, h') && forall d :: d in entries ==> d.key != e.key
    ensures Overlaid(h, entries + [e], h'[e.key := e])
  {
    var all := entries + [e];
    forall k | k in h'[e.key := e] && !HasKey(all, k) ensures k in h && h'[e.key := e][k] == h[k] {
      assert e in all;
      assert forall d :: d in entries ==> d in all;
    }
  }

  /** Inserting accepted entries with distinct keys, each insertable on its own, succeeds. */
  lemma {:induction false} InsertDistinct(env: Env, h: EntryMap, entries: seq<Entry>)
    requires DistinctEntryKeys(entries)
    requires forall e :: e in entries ==> EntryAccepted(env, e) && Insertable(h, e)
    ensures InsertEntries(env, h, entries).Ok?
    ensures Overlaid(h, entries, InsertEntries(env, h, entries).value)
  {
    if entries != [] {
      hide EntryAccepted, Overlaid;
      var n := |entries| - 1;
      var e := entries[n];
      assert entries == entries[..n] + [e];
      assert forall d :: d in entries[..n] ==> d in entries;
      InsertDistinct(env, h, entries[..n]);
      forall d | d in entries[..n] ensures d.key != e.key {
        var i :| 0 <= i < n && entries[i] == d;
      }
      var h' := InsertEntries(env, h, entries[..n]).value;
      StillInsertable(h, entries[..n], h', e);
      OverlayStep(h, entries[..n], e, h');
    }
  }

  lemma StillInsertable(h: EntryMap, entries: seq<Entry>, h': EntryMap, e: Entry)
    requires Overlaid(h, entries, h') && Insertable(h, e) && forall d :: d in entries ==> d.key != e.key
    ensures Insertable(h', e)
  {
    if e.key in h' {
      assert !HasKey(entries, e.key);
    }
  }

  // The worklist ------------------------------------------------------------

  /** The child pages of a placed page, in item order. */
  ghost function ChildrenUpTo(p: Placed, n: nat): seq<Placed>
    requires n <= |p.plan.items|
  {
    if n == 0 then []
    else
      ChildrenUpTo(p, n - 1) +
      (if p.plan.items[n - 1].ChildItem? then [Placed(p.plan.items[n - 1].page, ItemAt(p, n - 1))] else [])
  }

  ghost function Children(p: Placed): seq<Placed> {
    ChildrenUpTo(p, |p.plan.items|)
  }

  ghost predicate IsChildAt(p: Placed, c: Placed, i: int) {
    0 <= i < |p.plan.items| && p.plan.items[i].ChildItem? && c == Placed(p.plan.items[i].page, ItemAt(p, i))
  }

  lemma {:induction false} ChildrenAre(p: Placed, n: nat)
    requires n <= |p.plan.items|
    ensures forall c :: c in ChildrenUpTo(p, n) <==> exists i :: 0 <= i < n && IsChildAt(p, c, i)
  {
    hide ItemAt;
    if n > 0 {
      ChildrenAre(p, n - 1);
      var cs := ChildrenUpTo(p, n);
      forall c | c in cs ensures exists i :: 0 <= i < n && IsChildAt(p, c, i) {
        if c in ChildrenUpTo(p, n - 1) {
          var i :| 0 <= i < n - 1 && IsChildAt(p, c, i);
        } else {
          assert IsChildAt(p, c, n - 1);
        }
      }
      forall c, i | 0 <= i < n && IsChildAt(p, c, i) ensures c in cs {
        if i < n - 1 {
          assert c in ChildrenUpTo(p, n - 1);
        }
      }
    }
  }

  ghost function SumTrees(ps: seq<Placed>): nat {
    if ps == [] then 0 else SumTrees(ps[..|ps| - 1]) + TreeBytes(ps[|ps| - 1].plan)
  }

  lemma {:induction false} SumTreesAppend(a: seq<Placed>, b: seq<Placed>)
    ensures SumTrees(a + b) == SumTrees(a) + SumTrees(b)
  {
    hide TreeBytes;
    if b == [] {
      assert a + b == a;
    } else {
      var n := |b| - 1;
      SumTreesAppend(a, b[..n]);
      assert (a + b)[..|a + b| - 1] == a + b[..n];
    }
  }

  lemma OneTree(c: Placed)
    ensures SumTrees([c]) == TreeBytes(c.plan)
  {
    assert [c][..0] == [];
  }

  lemma ItemsBytesGrow(items: seq<Item>, k: nat)
    requires k < |items|
    ensures ItemsBytes(items[..k + 1]) == ItemsBytes(items[..k]) + ItemBytes(items[k])
  {
    assert items[..k + 1][..k] == items[..k];
  }

  lemma {:induction false} ChildrenBytes(p: Placed, n: nat)
    requires n <= |p.plan.items|
    ensures SumTrees(ChildrenUpTo(p, n)) == ItemsBytes(p.plan.items[..n])
  {
    if n > 0 {
      hide TreeBytes, ItemAt, ItemBytes, ItemsBytes, SumTrees;
      ChildrenBytes(p, n - 1);
      ItemsBytesGrow(p.plan.items, n - 1);
      ItemBytesIs(p.plan.items[n - 1]);
      assert !p.plan.items[n - 1].ChildItem? ==> ChildrenUpTo(p, n) == ChildrenUpTo(p, n - 1);
      if p.plan.items[n - 1].ChildItem? {
        var c := Placed(p.plan.items[n - 1].page, ItemAt(p, n - 1));
        SumTreesAppend(ChildrenUpTo(p, n - 1), [c]);
        OneTree(c);
      }
    }
  }

  lemma ItemBytesIs(item: Item)
    ensures ItemBytes(item) == if item.ChildItem? then TreeBytes(item.page) else 0
  {
  }

  function RangesOf(ps: seq<Placed>): (rs: seq<ByteRange>)
    ensures |rs| == |ps|
  {
    seq(|ps|, i requires 0 <= i < |ps| => PlacedRange(ps[i]))
  }

  ghost predicate Apart(a: Placed, b: Placed) {
    a.at + TreeBytes(a.plan) <= b.at || b.at + TreeBytes(b.plan) <= a.at
  }

  ghost predicate Incomparable(a: Page, b: Page) {
    a.key.Valid() && b.key.Valid() && !Under(a.key, b.key) && !Under(b.key, a.key)
  }

  /** Nothing is known under the page's key but its own child-page entry. */
  ghost predicate Untouched(h: EntryMap, p: Placed) {
    p.plan.key.Valid() &&
    forall k :: k in h && k.Valid() && Under(p.plan.key, k) ==> k == p.plan.key && h[k].IsChildPage()
  }

  /** No visited range starts inside the tree, except the page itself. */
  ghost predicate Unvisited(visited: set<ByteRange>, p: Placed) {
    forall v :: v in visited ==> v.offset <= p.at || v.offset >= p.at + TreeBytes(p.plan)
  }

  ghost predicate PairApart(a: Placed, b: Placed) {
    Apart(a, b) && Incomparable(a.plan, b.plan)
  }

  /** Trees occupy separate bytes and separate subtrees. */
  ghost predicate AllApart(ps: seq<Placed>) {
    forall i, j :: 0 <= i < j < |ps| ==> PairApart(ps[i], ps[j])
  }

  ghost predicate Collected(h: EntryMap, e: Entry) {
    e.key in h && h[e.key] == e && !e.IsChildPage()
  }

  ghost predicate Waiting(ps: seq<Placed>, e: Entry) {
    exists p :: p in ps && e in PointEntries(p.plan)
  }

  /** The worklist stands for the page trees `ps`; the entries `all` are loaded or in one of them. */
  ghost predicate Stage(env: Env, st: LoadState, ps: seq<Placed>, all: seq<Entry>) {
    && (forall p :: p in ps ==> Stands(env, p))
    && st.work.pending == RangesOf(ps)
    && (forall k :: k in st.hierarchy ==> k.Valid() && st.hierarchy[k].key == k)
    && (forall p :: p in ps ==> Untouched(st.hierarchy, p) && Unvisited(st.work.visited, p))
    && AllApart(ps)
    && st.totalBytes + SumTrees(ps) <= MAX_HIERARCHY_TOTAL_BYTES
    && (forall e :: e in all <==> Collected(st.hierarchy, e) || Waiting(ps, e))
  }

  // One turn ----------------------------------------------------------------

  lemma TreeBytesPositive(p: Placed)
    requires Planned(p.plan)
    ensures HIERARCHY_ENTRY_BYTES <= HIERARCHY_ENTRY_BYTES * |p.plan.items| <= TreeBytes(p.plan)
    ensures HIERARCHY_ENTRY_BYTES * |p.plan.items| <= 0x2_0000
  {
  }

  lemma {:induction false} ItemAtOrder(p: Placed, i: nat, j: nat)
    requires i < j <= |p.plan.items|
    ensures ItemsBytes(p.plan.items[..i]) + ItemBytes(p.plan.items[i]) <= ItemsBytes(p.plan.items[..j])
  {
    var front := p.plan.items[..j];
    ItemFits(front, i);
    assert front[..i] == p.plan.items[..i];
  }

  lemma RowsInsertable(env: Env, h: EntryMap, p: Placed)
    requires Stands(env, p) && Untouched(h, p)
    requires forall k :: k in h ==> k.Valid()
    ensures DistinctEntryKeys(Rows(p))
    ensures forall e :: e in Rows(p) ==> EntryAccepted(env, e) && Insertable(h, e)
  {
    hide Rows, EntryAccepted, Image, Writable, Laid, TreeBytes, ItemAt;
    var rows, items := Rows(p), p.plan.items;
    forall i, j | 0 <= i < j < |rows| ensures rows[i].key != rows[j].key {
      RowOf(env, p, i);
      RowOf(env, p, j);
    }
    forall e | e in rows ensures EntryAccepted(env, e) && Insertable(h, e) {
      var i :| 0 <= i < |rows| && rows[i] == e;
      RowOf(env, p, i);
      assert ItemBelow(items[i], p.plan.key);
    }
  }

  /** What a page's rows say about keys: they are its items' keys, under the page's key. */
  lemma RowKeys(env: Env, p: Placed, k: VoxelKey)
    requires Stands(env, p) && HasKey(Rows(p), k)
    ensures exists i :: 0 <= i < |p.plan.items| && ItemKey(p.plan.items[i]) == k && k.Valid() && Under(p.plan.key, k)
  {
    hide Rows, EntryAccepted, Image, Writable, Laid, TreeBytes, ItemAt, Under;
    var e :| e in Rows(p) && e.key == k;
    var i :| 0 <= i < |Rows(p)| && Rows(p)[i] == e;
    RowOf(env, p, i);
    assert ItemBelow(p.plan.items[i], p.plan.key);
  }

  lemma UntouchedChild(env: Env, h: EntryMap, p: Placed, h': EntryMap, c: Placed, i: nat)
    requires Stands(env, p) && Untouched(h, p) && Overlaid(h, Rows(p), h')
    requires forall k :: k in h ==> k.Valid()
    requires IsChildAt(p, c, i)
    ensures Untouched(h', c)
  {
    hide Rows, Image, Writable, Laid, TreeBytes, ItemAt, EntriesAccepted;
    var items := p.plan.items;
    assert ItemBelow(items[i], p.plan.key);
    forall k | k in h' && k.Valid() && Under(c.plan.key, k) ensures k == c.plan.key && h'[k].IsChildPage() {
      if HasKey(Rows(p), k) {
        RowKeys(env, p, k);
        var j :| 0 <= j < |items| && ItemKey(items[j]) == k;
        if items[j].ChildItem? {
          UnderAntisymmetric(c.plan.key, k);
        }
        assert j == i;
        RowOf(env, p, i);
        assert Rows(p)[i] in Rows(p);
      } else {
        UnderTransitive(p.plan.key, c.plan.key, k);
      }
    }
  }

  lemma UntouchedOther(env: Env, h: EntryMap, p: Placed, h': EntryMap, q: Placed)
    requires Stands(env, p) && Overlaid(h, Rows(p), h') && Untouched(h, q) && Incomparable(p.plan, q.plan)
    ensures Untouched(h', q)
  {
    hide Rows, Image, Writable, Laid, TreeBytes, ItemAt, EntriesAccepted, Planned;
    forall k | k in h' && k.Valid() && Under(q.plan.key, k) ensures k == q.plan.key && h'[k].IsChildPage() {
      if HasKey(Rows(p), k) {
        RowKeys(env, p, k);
        if p.plan.key.level <= q.plan.key.level {
          AncestorsNest(p.plan.key, q.plan.key, k);
        } else {
          AncestorsNest(q.plan.key, p.plan.key, k);
        }
      }
    }
  }

  lemma ChildIncomparable(env: Env, p: Placed, c: Placed, i: nat, q: Placed)
    requires Stands(env, p) && IsChildAt(p, c, i) && Incomparable(p.plan, q.plan)
    ensures Incomparable(c.plan, q.plan)
  {
    hide Rows, Image, Writable, Laid, TreeBytes, ItemAt, EntriesAccepted;
    assert ItemBelow(p.plan.items[i], p.plan.key);
    var a, b, d := p.plan.key, c.plan.key, q.plan.key;
    if Under(b, d) {
      UnderTransitive(a, b, d);
    }
    if Under(d, b) {
      if a.level <= d.level {
        AncestorsNest(a, d, b);
      } else {
        AncestorsNest(d, a, b);
      }
    }
  }

  lemma SiblingsIncomparable(env: Env, p: Placed, c: Placed, i: nat, d: Placed, j: nat)
    requires Stands(env, p) && IsChildAt(p, c, i) && IsChildAt(p, d, j) && i != j
    ensures Incomparable(c.plan, d.plan)
  {
    hide Rows, Image, Writable, Laid, TreeBytes, ItemAt, EntriesAccepted;
    assert ItemBelow(p.plan.items[i], p.plan.key) && ItemBelow(p.plan.items[j], p.plan.key);
    var a, b := c.plan.key, d.plan.key;
    assert a.level == b.level && a != b;
    if Under(a, b) {
      UnderAntisymmetric(a, b);
    }
    if Under(b, a) {
      UnderAntisymmetric(b, a);
    }
  }

  lemma LastItemEntries(items: seq<Item>, e: Entry)
    ensures e in ItemsEntries(items) <==>
      items != [] && (e in ItemsEntries(items[..|items| - 1]) || e in ItemEntries(items[|items| - 1]))
  {
    hide ItemEntries;
  }

  lemma {:induction false} EntryCases(items: seq<Item>, e: Entry)
    ensures e in ItemsEntries(items) <==> exists i :: 0 <= i < |items| && e in ItemEntries(items[i])
  {
    hide ItemEntries, ItemsEntries;
    LastItemEntries(items, e);
    if items != [] {
      var n := |items| - 1;
      var front := items[..n];
      EntryCases(front, e);
      if i :| 0 <= i < n && e in ItemEntries(items[i]) {
        assert e in ItemEntries(front[i]);
      }
      if e in ItemsEntries(front) {
        var i :| 0 <= i < n && e in ItemEntries(front[i]);
        assert e in ItemEntries(items[i]);
      }
    }
  }

  /** Loading a page moves its own point entries into the hierarchy and leaves the rest waiting. */
  lemma EntryMoves(env: Env, h: EntryMap, p: Placed, h': EntryMap, e: Entry)
    requires Stands(env, p) && Untouched(h, p) && Overlaid(h, Rows(p), h')
    requires forall k :: k in h ==> k.Valid() && h[k].key == k
    ensures Collected(h', e) || Waiting(Children(p), e) <==> Collected(h, e) || e in PointEntries(p.plan)
  {
    hide Image, Writable, Laid, TreeBytes, ItemAt, EntryAccepted, Under, Rows, Planned, EntriesAccepted, ItemsEntries;
    var items := p.plan.items;
    EntryCases(items, e);
    ChildrenAre(p, |items|);
    if e in PointEntries(p.plan) {
      var i :| 0 <= i < |items| && e in ItemEntries(items[i]);
      RowOf(env, p, i);
      if items[i].PointItem? {
        assert Rows(p)[i] in Rows(p);
      } else {
        var c := Placed(items[i].page, ItemAt(p, i));
        assert IsChildAt(p, c, i) && c in Children(p);
      }
    }
    if Collected(h, e) {
      if HasKey(Rows(p), e.key) {
        RowKeys(env, p, e.key);
      }
    }
    if Collected(h', e) && !Collected(h, e) {
      var d :| d in Rows(p) && d.key == e.key;
      var i :| 0 <= i < |Rows(p)| && Rows(p)[i] == d;
      RowOf(env, p, i);
      assert e in ItemEntries(items[i]);
    }
    if Waiting(Children(p), e) {
      var c :| c in Children(p) && e in PointEntries(c.plan);
      var i :| 0 <= i < |items| && IsChildAt(p, c, i);
      assert e in ItemEntries(items[i]);
    }
  }

  /** The children before item `n` end before item `n` is laid out. */
  lemma EarlierChildren(env: Env, p: Placed, n: nat)
    requires Stands(env, p) && n <= |p.plan.items|
    ensures forall c :: c in ChildrenUpTo(p, n) ==>
      && p.at < c.at && c.at + HIERARCHY_ENTRY_BYTES <= c.at + TreeBytes(c.plan)
      && c.at + TreeBytes(c.plan) <= p.at + HIERARCHY_ENTRY_BYTES * |p.plan.items| + ItemsBytes(p.plan.items[..n])
  {
    hide Image, Writable, Laid, EntriesAccepted, EntryAccepted, TreeBytes, ItemsBytes;
    ChildrenAre(p, n);
    forall c | c in ChildrenUpTo(p, n)
      ensures p.at < c.at && c.at + HIERARCHY_ENTRY_BYTES <= c.at + TreeBytes(c.plan)
      ensures c.at + TreeBytes(c.plan) <= p.at + HIERARCHY_ENTRY_BYTES * |p.plan.items| + ItemsBytes(p.plan.items[..n])
    {
      var i :| 0 <= i < n && IsChildAt(p, c, i);
      ItemAtOrder(p, i, n);
      ItemBytesIs(p.plan.items[i]);
      TreeBytesPositive(p);
      TreeBytesPositive(c);
    }
  }

  /** A child's range is new: it starts after those of the children before it, and inside the page's tree. */
  lemma FreshRange(env: Env, p: Placed, visited: set<ByteRange>, n: nat)
    requires Stands(env, p) && Unvisited(visited, p) && n < |p.plan.items| && p.plan.items[n].ChildItem?
    ensures var r := PlacedRange(Placed(p.plan.items[n].page, ItemAt(p, n)));
      r !in visited && r !in RangesOf(ChildrenUpTo(p, n))
  {
    hide Image, Writable, Laid, EntriesAccepted, EntryAccepted, TreeBytes, ItemsBytes, Planned;
    var c := Placed(p.plan.items[n].page, ItemAt(p, n));
    var before := ChildrenUpTo(p, n);
    EarlierChildren(env, p, n);
    ChildStands(env, p, n);
    TreeBytesPositive(p);
    TreeBytesPositive(c);
    forall i | 0 <= i < |before| ensures RangesOf(before)[i].offset < c.at {
      assert before[i] in before;
    }
  }

  /** Queueing a page's rows pushes the ranges of its child pages, in order. */
  lemma {:induction false} RowsPush(env: Env, p: Placed, w: Worklist, n: nat)
    requires Stands(env, p) && Unvisited(w.visited, p) && n <= |p.plan.items|
    requires forall e :: e in Rows(p) ==> e.Valid()
    ensures var w' := PushChildren(w, Rows(p)[..n]);
      && w'.pending == w.pending + RangesOf(ChildrenUpTo(p, n))
      && (forall v :: v in w'.visited <==> v in w.visited || v in RangesOf(ChildrenUpTo(p, n)))
  {
    hide Rows, Image, Writable, Laid, TreeBytes, ItemAt, EntriesAccepted, Planned, EntryAccepted, Entry.Valid, Unvisited,
      RangeOf, PlacedRange;
    if n > 0 {
      RowsPush(env, p, w, n - 1);
      RowOf(env, p, n - 1);
      assert Rows(p)[..n][..n - 1] == Rows(p)[..n - 1];
      if p.plan.items[n - 1].ChildItem? {
        var c := Placed(p.plan.items[n - 1].page, ItemAt(p, n - 1));
        FreshRange(env, p, w.visited, n - 1);
        assert RangesOf(ChildrenUpTo(p, n)) == RangesOf(ChildrenUpTo(p, n - 1)) + [PlacedRange(c)];
      } else {
        assert ChildrenUpTo(p, n) == ChildrenUpTo(p, n - 1);
      }
    }
  }

  lemma {:induction false} ChildrenApart(env: Env, p: Placed, n: nat)
    requires Stands(env, p) && n <= |p.plan.items|
    ensures AllApart(ChildrenUpTo(p, n))
  {
    hide Image, Writable, Laid, EntriesAccepted, EntryAccepted, TreeBytes, ItemsBytes, Stands, Under, Planned, PairApart;
    if n > 0 {
      ChildrenApart(env, p, n - 1);
      var before, cs := ChildrenUpTo(p, n - 1), ChildrenUpTo(p, n);
      if p.plan.items[n - 1].ChildItem? {
        var c := Placed(p.plan.items[n - 1].page, ItemAt(p, n - 1));
        assert cs == before + [c];
        forall i | 0 <= i < |before| ensures PairApart(before[i], c) {
          LaterChildApart(env, p, n - 1, i);
        }
        AllApartGrows(before, c);
      } else {
        assert cs == before;
      }
    }
  }

  lemma AllApartGrows(before: seq<Placed>, c: Placed)
    requires AllApart(before) && forall i :: 0 <= i < |before| ==> PairApart(before[i], c)
    ensures AllApart(before + [c])
  {
    hide PairApart;
  }

  lemma LaterChildApart(env: Env, p: Placed, n: nat, i: nat)
    requires Stands(env, p) && n < |p.plan.items| && p.plan.items[n].ChildItem? && i < |ChildrenUpTo(p, n)|
    ensures var c, b := Placed(p.plan.items[n].page, ItemAt(p, n)), ChildrenUpTo(p, n)[i];
      PairApart(b, c)
  {
    hide Image, Writable, Laid, EntriesAccepted, EntryAccepted, TreeBytes, ItemsBytes, Stands, Under, Planned, Incomparable;
    var c, b := Placed(p.plan.items[n].page, ItemAt(p, n)), ChildrenUpTo(p, n)[i];
    EarlierChildren(env, p, n);
    ChildrenAre(p, n);
    assert b in ChildrenUpTo(p, n);
    var k :| 0 <= k < n && IsChildAt(p, b, k);
    SiblingsIncomparable(env, p, b, k, c, n);
  }

  /** What one turn does to the state when the popped page is standing. */
  ghost predicate Turned(st: LoadState, rest: seq<Placed>, p: Placed, next: LoadState)
    requires p.at + TreeBytes(p.plan) <= UINT64_MAX && Writable(Laid(p.plan, p.at), p.at)
  {
    && Overlaid(st.hierarchy, Rows(p), next.hierarchy)
    && next.work.pending == RangesOf(rest) + RangesOf(Children(p))
    && (forall v :: v in next.work.visited <==> v in st.work.visited || v in RangesOf(Children(p)))
    && next.totalBytes == st.totalBytes + HIERARCHY_ENTRY_BYTES * |p.plan.items|
  }

  lemma TurnSucceeds(env: Env, st: LoadState, rest: seq<Placed>, p: Placed)
    requires Stands(env, p) && Untouched(st.hierarchy, p) && Unvisited(st.work.visited, p)
    requires st.work.pending == RangesOf(rest + [p])
    requires forall k :: k in st.hierarchy ==> k.Valid()
    requires st.totalBytes + TreeBytes(p.plan) <= MAX_HIERARCHY_TOTAL_BYTES
    ensures Step(env, st).Ok? && Turned(st, rest, p, Step(env, st).value)
  {
    hide Image, Writable, Laid, EntriesAccepted, EntryAccepted, TreeBytes, ItemsBytes, Untouched, Unvisited, Rows,
      PageAt, Planned, InsertEntries, PushChildren, Overlaid, ChildrenUpTo, Insertable, ItemAt;
    var n := |st.work.pending| - 1;
    assert st.work.pending[..n] == RangesOf(rest);
    assert st.work.pending[n] == PlacedRange(p);
    PageReadsBack(env, p);
    TreeBytesPositive(p);
    RowsInsertable(env, st.hierarchy, p);
    InsertDistinct(env, st.hierarchy, Rows(p));
    var w := st.work.(pending := st.work.pending[..n]);
    RowsPush(env, p, w, |p.plan.items|);
    assert Rows(p)[..|p.plan.items|] == Rows(p);
  }

  lemma RangesAppend(a: seq<Placed>, b: seq<Placed>)
    ensures RangesOf(a + b) == RangesOf(a) + RangesOf(b)
  {
  }

  /** Trees apart from a page are still unvisited once its children are. */
  lemma StillUnvisited(env: Env, p: Placed, visited: set<ByteRange>, visited': set<ByteRange>, q: Placed)
    requires Stands(env, p) && Unvisited(visited, q) && Apart(q, p)
    requires forall v :: v in visited' <==> v in visited || v in RangesOf(Children(p))
    ensures Unvisited(visited', q)
  {
    hide Image, Writable, Laid, EntriesAccepted, EntryAccepted, TreeBytes, ItemsBytes, Planned, Children;
    forall v | v in visited' ensures v.offset <= q.at || v.offset >= q.at + TreeBytes(q.plan) {
      if v in RangesOf(Children(p)) {
        var i :| 0 <= i < |Children(p)| && RangesOf(Children(p))[i] == v;
        ChildInside(env, p, i);
      }
    }
  }

  lemma ChildInside(env: Env, p: Placed, i: nat)
    requires Stands(env, p) && i < |Children(p)|
    ensures var c := Children(p)[i];
      && Stands(env, c) && p.at < c.at && c.at < c.at + TreeBytes(c.plan) <= p.at + TreeBytes(p.plan)
      && exists k :: 0 <= k < |p.plan.items| && IsChildAt(p, c, k)
  {
    hide Image, Writable, Laid, EntriesAccepted, EntryAccepted, TreeBytes, ItemsBytes, Planned, ItemAt;
    var c := Children(p)[i];
    ChildrenAre(p, |p.plan.items|);
    assert c in Children(p);
    var k :| 0 <= k < |p.plan.items| && IsChildAt(p, c, k);
    ChildStands(env, p, k);
    TreeBytesPositive(p);
    TreeBytesPositive(c);
  }

  /** A child tree is unvisited once it and its siblings are queued. */
  lemma ChildUnvisited(env: Env, p: Placed, visited: set<ByteRange>, visited': set<ByteRange>, i: nat)
    requires Stands(env, p) && Unvisited(visited, p) && i < |Children(p)|
    requires forall v :: v in visited' <==> v in visited || v in RangesOf(Children(p))
    ensures Unvisited(visited', Children(p)[i])
  {
    hide Image, Writable, Laid, EntriesAccepted, EntryAccepted, TreeBytes, ItemsBytes, Planned, ChildrenUpTo, Incomparable;
    var cs := Children(p);
    ChildrenApart(env, p, |p.plan.items|);
    ChildInside(env, p, i);
    forall v | v in visited' ensures v.offset <= cs[i].at || v.offset >= cs[i].at + TreeBytes(cs[i].plan) {
      if v in RangesOf(cs) {
        var j :| 0 <= j < |cs| && RangesOf(cs)[j] == v;
        ChildInside(env, p, j);
        assert i < j ==> PairApart(cs[i], cs[j]);
        assert j < i ==> PairApart(cs[j], cs[i]);
      }
    }
  }

  lemma OverlayKeyed(env: Env, h: EntryMap, p: Placed, h': EntryMap, k: VoxelKey)
    requires Stands(env, p) && Overlaid(h, Rows(p), h') && k in h'
    requires forall j :: j in h ==> j.Valid() && h[j].key == j
    ensures k.Valid() && h'[k].key == k
  {
    hide Image, Writable, Laid, EntriesAccepted, EntryAccepted, TreeBytes, ItemsBytes, Planned, Rows, Under;
    if HasKey(Rows(p), k) {
      RowKeys(env, p, k);
    }
  }

  /** The trees left after a page is loaded: the others, then its children. */
  lemma TreesAfter(env: Env, st: LoadState, rest: seq<Placed>, p: Placed, next: LoadState, all: seq<Entry>, q: Placed)
    requires Stage(env, st, rest + [p], all) && Stands(env, p) && Turned(st, rest, p, next)
    requires q in rest + Children(p)
    ensures Stands(env, q) && Untouched(next.hierarchy, q) && Unvisited(next.work.visited, q)
  {
    hide Image, Writable, Laid, EntriesAccepted, EntryAccepted, TreeBytes, ItemsBytes, Planned, Rows, Under, Untouched,
      Unvisited, ChildrenUpTo, Overlaid, Children, Waiting, Collected, Stands, RangesOf;
    var ps := rest + [p];
    assert p == ps[|rest|] && p in ps;
    if q in rest {
      var i :| 0 <= i < |rest| && rest[i] == q;
      assert q == ps[i] && q in ps;
      assert PairApart(ps[i], ps[|rest|]);
      IncomparableSym(q.plan, p.plan);
      UntouchedOther(env, st.hierarchy, p, next.hierarchy, q);
      StillUnvisited(env, p, st.work.visited, next.work.visited, q);
    } else {
      var i :| 0 <= i < |Children(p)| && Children(p)[i] == q;
      ChildInside(env, p, i);
      var k :| 0 <= k < |p.plan.items| && IsChildAt(p, q, k);
      UntouchedChild(env, st.hierarchy, p, next.hierarchy, q, k);
      ChildUnvisited(env, p, st.work.visited, next.work.visited, i);
    }
  }

  lemma IncomparableSym(a: Page, b: Page)
    requires Incomparable(a, b)
    ensures Incomparable(b, a)
  {
  }

  lemma TreesApartAfter(env: Env, rest: seq<Placed>, p: Placed)
    requires Stands(env, p) && AllApart(rest + [p])
    ensures AllApart(rest + Children(p))
  {
    hide Image, Writable, Laid, EntriesAccepted, EntryAccepted, TreeBytes, ItemsBytes, Planned, Under, ChildrenUpTo, Stands, PairApart;
    var ps, cs := rest + [p], Children(p);
    ChildrenApart(env, p, |p.plan.items|);
    forall i, j | 0 <= i < j < |rest| ensures PairApart(rest[i], rest[j]) {
      assert rest[i] == ps[i] && rest[j] == ps[j];
    }
    forall i, c | 0 <= i < |rest| && 0 <= c < |cs| ensures PairApart(rest[i], cs[c]) {
      assert rest[i] == ps[i] && p == ps[|rest|];
      ChildApartFrom(env, p, c, rest[i]);
    }
    forall i, j | 0 <= i < j < |rest + cs| ensures PairApart((rest + cs)[i], (rest + cs)[j]) {
    }
  }

  lemma ChildApartFrom(env: Env, p: Placed, c: nat, q: Placed)
    requires Stands(env, p) && PairApart(q, p) && c < |Children(p)|
    ensures PairApart(q, Children(p)[c])
  {
    hide Image, Writable, Laid, EntriesAccepted, EntryAccepted, TreeBytes, ItemsBytes, Planned, Under, ChildrenUpTo, Stands, Incomparable;
    ChildInside(env, p, c);
    var child := Children(p)[c];
    var k :| 0 <= k < |p.plan.items| && IsChildAt(p, child, k);
    IncomparableSym(q.plan, p.plan);
    ChildIncomparable(env, p, child, k, q);
    IncomparableSym(child.plan, q.plan);
  }

  lemma EntriesAfter(env: Env, st: LoadState, rest: seq<Placed>, p: Placed, next: LoadState, all: seq<Entry>, e: Entry)
    requires Stage(env, st, rest + [p], all) && Stands(env, p) && Turned(st, rest, p, next)
    ensures e in all <==> Collected(next.hierarchy, e) || Waiting(rest + Children(p), e)
  {
    hide Image, Writable, Laid, EntriesAccepted, EntryAccepted, TreeBytes, ItemsBytes, Planned, Rows, Under, Untouched,
      Unvisited, ChildrenUpTo, Overlaid, Children, Collected, Stands, RangesOf, PointEntries, AllApart;
    var ps := rest + [p];
    assert p == ps[|rest|] && p in ps;
    EntryMoves(env, st.hierarchy, p, next.hierarchy, e);
    WaitingSplits(rest, [p], e);
    WaitingSplits(rest, Children(p), e);
    assert [p][0] == p;
    assert Waiting([p], e) <==> e in PointEntries(p.plan);
  }

  lemma WaitingSplits(a: seq<Placed>, b: seq<Placed>, e: Entry)
    ensures Waiting(a + b, e) <==> Waiting(a, e) || Waiting(b, e)
  {
    hide PointEntries;
    assert forall q :: q in a + b <==> q in a || q in b;
  }

  /** One turn of the worklist on a standing page succeeds and leaves its children standing in its place. */
  lemma StageStep(env: Env, st: LoadState, rest: seq<Placed>, p: Placed, all: seq<Entry>)
    requires Stage(env, st, rest + [p], all)
    ensures st.work.pending != [] && Step(env, st).Ok?
    ensures Stage(env, Step(env, st).value, rest + Children(p), all)
    ensures SumTrees(rest + Children(p)) < SumTrees(rest + [p])
  {
    hide Image, Writable, Laid, EntriesAccepted, EntryAccepted, ItemsBytes, Planned, Rows, Under, Untouched,
      Unvisited, ChildrenUpTo, Overlaid, Collected, Waiting, Stands, PointEntries, AllApart, Step, VoxelKey.Valid;
    var ps := rest + [p];
    assert p == ps[|rest|] && p in ps;
    assert ps[..|rest|] == rest;
    SumTreesAppend(rest, Children(p));
    ChildrenBytes(p, |p.plan.items|);
    assert p.plan.items[..|p.plan.items|] == p.plan.items;
    assert |p.plan.items| > 0 by {
      StandsNonEmpty(env, p);
    }
    TurnSucceeds(env, st, rest, p);
    var next := Step(env, st).value;
    RangesAppend(rest, Children(p));
    forall q | q in rest + Children(p)
      ensures Stands(env, q) && Untouched(next.hierarchy, q) && Unvisited(next.work.visited, q)
    {
      TreesAfter(env, st, rest, p, next, all, q);
    }
    forall k | k in next.hierarchy ensures k.Valid() && next.hierarchy[k].key == k {
      OverlayKeyed(env, st.hierarchy, p, next.hierarchy, k);
    }
    var qs := rest + Children(p);
    TreesApartAfter(env, rest, p);
    forall e ensures e in all <==> Collected(next.hierarchy, e) || Waiting(qs, e) {
      EntriesAfter(env, st, rest, p, next, all, e);
    }
  }

  lemma StandsNonEmpty(env: Env, p: Placed)
    requires Stands(env, p)
    ensures |p.plan.items| > 0
  {
  }

  // The whole load ----------------------------------------------------------

  lemma RunUnfolds(env: Env, st: LoadState)
    ensures st.work.pending == [] ==> Run(env, st) == Ok(st)
    ensures st.work.pending != [] && Step(env, st).Ok? ==> Run(env, st) == Run(env, Step(env, st).value)
  {
  }

  lemma {:induction false} RunLoads(env: Env, st: LoadState, ps: seq<Placed>, all: seq<Entry>)
    requires Stage(env, st, ps, all)
    ensures Run(env, st).Ok? && Stage(env, Run(env, st).value, [], all)
    decreases SumTrees(ps)
  {
    hide Run, Step, Stage, SumTrees, Children;
    RunUnfolds(env, st);
    if ps == [] {
      StageDone(env, st, all);
    } else {
      var n := |ps| - 1;
      assert ps == ps[..n] + [ps[n]];
      StageStep(env, st, ps[..n], ps[n], all);
      RunLoads(env, Step(env, st).value, ps[..n] + Children(ps[n]), all);
    }
  }

  lemma StageDone(env: Env, st: LoadState, all: seq<Entry>)
    requires Stage(env, st, [], all)
    ensures st.work.pending == []
  {
  }

  /** The hierarchy holds exactly these entries, plus child-page entries at keys that have none. */
  ghost predicate LoadedExactly(h: EntryMap, all: seq<Entry>) {
    && (forall k :: k in h ==> k.Valid() && h[k].key == k)
    && (forall e :: e in all ==> e.key in h && h[e.key] == e)
    && (forall k :: k in h ==> h[k] in all || (h[k].IsChildPage() && !HasKey(all, k)))
  }

  /** The page-tree round trip: a standing tree loads back as exactly its point entries. */
  lemma TreeLoadsBack(env: Env, p: Placed, all: seq<Entry>)
    requires Stands(env, p) && TreeBytes(p.plan) <= MAX_HIERARCHY_TOTAL_BYTES
    requires multiset(PointEntries(p.plan)) == multiset(all)
    ensures LoadAll(env, PlacedRange(p)).Ok?
    ensures LoadedExactly(LoadAll(env, PlacedRange(p)).value.hierarchy, all)
  {
    hide Run, LoadRange, Stands, TreeBytes, Stage, PointEntries;
    var start := InitialState(PlacedRange(p));
    var queued := start.(work := start.work.(pending := [PlacedRange(p)]));
    StageBegins(env, p, all);
    RunLoads(env, queued, [p], all);
    RunUnfolds(env, queued);
    assert queued.work.pending[..0] == [];
    assert Step(env, queued) == LoadRange(env, start, PlacedRange(p));
    StepRuns(env, queued);
    EverythingCollected(env, Run(env, queued).value, all);
  }

  lemma StepRuns(env: Env, st: LoadState)
    requires st.work.pending != [] && Run(env, st).Ok?
    ensures Step(env, st).Ok? && Run(env, st) == Run(env, Step(env, st).value)
  {
  }

  lemma StageBegins(env: Env, p: Placed, all: seq<Entry>)
    requires Stands(env, p) && TreeBytes(p.plan) <= MAX_HIERARCHY_TOTAL_BYTES
    requires multiset(PointEntries(p.plan)) == multiset(all)
    ensures var start := InitialState(PlacedRange(p));
      Stage(env, start.(work := start.work.(pending := [PlacedRange(p)])), [p], all)
  {
    hide TreeBytes, Image, Writable, Laid, EntriesAccepted, PointEntries;
    assert Planned(p.plan) && p.plan.key.Valid();
    assert [p][..0] == [] && SumTrees([p]) == SumTrees([]) + TreeBytes(p.plan);
    assert RangesOf([p]) == [PlacedRange(p)];
    forall e ensures e in all <==> Waiting([p], e) {
      assert e in all <==> e in multiset(all);
      assert e in PointEntries(p.plan) <==> e in multiset(PointEntries(p.plan));
      assert p in [p];
    }
  }

  lemma EverythingCollected(env: Env, st: LoadState, all: seq<Entry>)
    requires Stage(env, st, [], all)
    ensures LoadedExactly(st.hierarchy, all)
  {
    var h := st.hierarchy;
    assert forall e :: !Waiting([], e);
    forall k | k in h ensures h[k] in all || (h[k].IsChildPage() && !HasKey(all, k)) {
      assert forall e :: e in all && e.key == k ==> Collected(h, e);
      assert !h[k].IsChildPage() ==> Collected(h, h[k]);
    }
  }

  // Whole-hierarchy checks on a load that came back exactly ------------------

  lemma {:induction false} NothingAddsUp(h: EntryMap)
    requires forall k :: k in h ==> PointsOf(h[k]) == 0
    ensures MapSum(h, PointsOf) == 0
    decreases |h|
  {
    if h != map[] {
      var k :| k in h;
      MapSumRemove(h, PointsOf, k);
      NothingAddsUp(h - {k});
    }
  }

  lemma PointsUnfold(all: seq<Entry>)
    requires all != []
    ensures EntriesPoints(all) == EntriesPoints(all[..|all| - 1]) + PointsOf(all[|all| - 1])
  {
  }

  lemma {:induction false} ExactSum(h: EntryMap, all: seq<Entry>)
    requires DistinctEntryKeys(all)
    requires forall e :: e in all ==> e.key in h && h[e.key] == e
    requires forall k :: k in h && !HasKey(all, k) ==> PointsOf(h[k]) == 0
    ensures MapSum(h, PointsOf) == EntriesPoints(all)
    decreases |all|
  {
    if all == [] {
      assert forall k :: !HasKey(all, k);
      NothingAddsUp(h);
    } else {
      hide MapSum, EntriesPoints;
      var n := |all| - 1;
      var e := all[n];
      var rest := h - {e.key};
      assert e in all;
      PointsUnfold(all);
      MapSumRemove(h, PointsOf, e.key);
      forall d | d in all[..n] ensures d.key in rest && rest[d.key] == d {
        var i :| 0 <= i < n && all[i] == d;
        assert d in all;
      }
      forall k | k in rest && !HasKey(all[..n], k) ensures PointsOf(rest[k]) == 0 {
        assert forall d :: d in all ==> d in all[..n] || d == e;
      }
      ExactSum(rest, all[..n]);
    }
  }

  /** A hierarchy loaded exactly passes the whole-file checks when its chunks are disjoint and add up. */
  lemma ExactIsAccepted(env: Env, h: EntryMap, all: seq<Entry>, numberOfPoints: uint64)
    requires Keyed(h) && LoadedExactly(h, all) && DistinctEntryKeys(all)
    requires forall k :: k in h ==> EntryAccepted(env, h[k])
    requires AllDisjoint(all) && EntriesPoints(all) == numberOfPoints
    ensures WholeAccepted(h, numberOfPoints)
  {
    hide SortedValues, InsertRanges, EntriesPoints, MapSum, EntryAccepted, Sound, HoldsExactly, Lists, AllDisjoint,
      MapDisjoint, DistinctEntryKeys, ChunkSized, HasKey;
    NoStrayPoints(h, all);
    SortedLists(h);
    ListSum(SortedValues(h), h);
    ExactSum(h, all);
    AcceptedSized(env, h);
    InsertRangesExact(SortedValues(h));
    DisjointTransfers(h, all);
    ListDisjoint(SortedValues(h), h);
  }

  lemma NoStrayPoints(h: EntryMap, all: seq<Entry>)
    requires LoadedExactly(h, all)
    ensures forall k :: k in h && !HasKey(all, k) ==> PointsOf(h[k]) == 0
  {
    forall k | k in h && !HasKey(all, k) ensures PointsOf(h[k]) == 0 {
      assert h[k].key == k;
    }
  }

  lemma DisjointTransfers(h: EntryMap, all: seq<Entry>)
    requires LoadedExactly(h, all) && AllDisjoint(all)
    ensures MapDisjoint(h)
  {
    forall j, k | j in h && k in h && j != k && h[j].HasPointData() && h[k].HasPointData()
      ensures ChunksDisjoint(h[j], h[k])
    {
      var a :| 0 <= a < |all| && all[a] == h[j];
      var b :| 0 <= b < |all| && all[b] == h[k];
      assert a < b ==> ChunksDisjoint(all[a], all[b]);
      assert b < a ==> ChunksDisjoint(all[b], all[a]);
    }
  }
}
