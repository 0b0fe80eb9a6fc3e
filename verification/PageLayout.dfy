/** Laying a planned page tree out in the file (copc-writer/src/hierarchy_pages.rs). */
module PageLayout {
  import opened Core
  import opened Voxel
  import opened Codec
  import opened HierarchyPages

  lemma {:induction false} LaidItemsAt(items: seq<Item>, next: nat, i: nat)
    requires next + ItemsBytes(items) <= UINT64_MAX && i < |items|
    ensures next + ItemsBytes(items[..i]) + ItemBytes(items[i]) <= UINT64_MAX
    ensures LaidItems(items, next)[i] == LaidItem(items[i], next + ItemsBytes(items[..i]))
    decreases |items|
  {
    var n := |items| - 1;
    if i < n {
      LaidItemsAt(items[..n], next, i);
      assert items[..n][..i] == items[..i];
    }
  }

  /** Assigning offsets changes neither the entries nor the size of a tree. */
  lemma {:induction false} LaidKeepsEntries(page: Page, at: nat)
    requires at + TreeBytes(page) <= UINT64_MAX
    ensures PointEntries(Laid(page, at)) == PointEntries(page)
    ensures TreeBytes(Laid(page, at)) == TreeBytes(page)
    decreases page
  {
    LaidItemsKeep(page.items, at + HIERARCHY_ENTRY_BYTES * |page.items|);
  }

  lemma {:induction false} LaidItemsKeep(items: seq<Item>, next: nat)
    requires next + ItemsBytes(items) <= UINT64_MAX
    ensures ItemsEntries(LaidItems(items, next)) == ItemsEntries(items)
    ensures ItemsBytes(LaidItems(items, next)) == ItemsBytes(items)
    decreases items
  {
    hide Laid;
    if items != [] {
      var n := |items| - 1;
      LaidItemsKeep(items[..n], next);
      LaidItemKeeps(items[n], next + ItemsBytes(items[..n]));
      var laid := LaidItems(items, next);
      assert laid[..n] == LaidItems(items[..n], next);
    }
  }

  lemma {:induction false} LaidItemKeeps(item: Item, next: nat)
    requires next + ItemBytes(item) <= UINT64_MAX
    ensures ItemEntries(LaidItem(item, next)) == ItemEntries(item)
    ensures ItemBytes(LaidItem(item, next)) == ItemBytes(item)
    decreases item
  {
    if item.ChildItem? {
      LaidKeepsEntries(item.page, next);
    }
  }

  lemma {:induction false} EntryOfItem(items: seq<Item>, i: nat)
    requires i < |items|
    ensures forall e :: e in ItemEntries(items[i]) ==> e in ItemsEntries(items)
    decreases |items|
  {
    if i < |items| - 1 {
      EntryOfItem(items[..|items| - 1], i);
    }
  }

  lemma LaidItemWritable(page: Page, at: nat, i: nat)
    requires at + TreeBytes(page) <= UINT64_MAX && Planned(page) && i < |page.items|
    requires forall e :: e in PointEntries(page) ==> e.Valid()
    ensures ItemWritable(LaidItems(page.items, at + HIERARCHY_ENTRY_BYTES * |page.items|)[i])
  {
    hide Under, VoxelKey.Valid;
    LaidItemsAt(page.items, at + HIERARCHY_ENTRY_BYTES * |page.items|, i);
    EntryOfItem(page.items, i);
  }

  /** A laid-out plan of valid entries is exactly what the writer accepts at its offset. */
  lemma {:induction false} LaidWritable(page: Page, at: nat)
    requires at + TreeBytes(page) <= UINT64_MAX && Planned(page)
    requires forall e :: e in PointEntries(page) ==> e.Valid()
    ensures Writable(Laid(page, at), at)
    decreases page
  {
    hide Under, VoxelKey.Valid, ItemWritable;
    var next := at + HIERARCHY_ENTRY_BYTES * |page.items|;
    var laid := LaidItems(page.items, next);
    forall i | 0 <= i < |laid| ensures ItemWritable(laid[i]) {
      LaidItemWritable(page, at, i);
    }
    forall i | 0 <= i < |page.items|
      ensures forall e :: e in ItemEntries(page.items[i]) ==> e.Valid()
    {
      EntryOfItem(page.items, i);
    }
    LaidItemsWritable(page.items, next);
  }

  lemma {:induction false} LaidItemsWritable(items: seq<Item>, next: nat)
    requires next + ItemsBytes(items) <= UINT64_MAX
    requires forall i :: 0 <= i < |items| && items[i].ChildItem? ==> Planned(items[i].page)
    requires forall i :: 0 <= i < |items| ==> forall e :: e in ItemEntries(items[i]) ==> e.Valid()
    ensures ItemsWritable(LaidItems(items, next), next)
    decreases items
  {
    hide Planned, ItemEntries, Entry.Valid, TreeWritable, LaidItem;
    if items != [] {
      var n := |items| - 1;
      LaidItemsWritable(items[..n], next);
      LaidItemsKeep(items[..n], next);
      LaidTreeWritable(items[n], next + ItemsBytes(items[..n]));
      var laid := LaidItems(items, next);
      assert laid[..n] == LaidItems(items[..n], next);
    }
  }

  lemma {:induction false} LaidTreeWritable(item: Item, next: nat)
    requires next + ItemBytes(item) <= UINT64_MAX
    requires item.ChildItem? ==> Planned(item.page)
    requires forall e :: e in ItemEntries(item) ==> e.Valid()
    ensures TreeWritable(LaidItem(item, next), next)
    decreases item
  {
    if item.ChildItem? {
      LaidWritable(item.page, next);
    }
  }

  // Pre-order tiling --------------------------------------------------------

  ghost function PreOrder(page: Page): seq<Page>
    decreases page
  {
    [page] + ItemsPreOrder(page.items)
  }

  ghost function ItemsPreOrder(items: seq<Item>): seq<Page>
    decreases items
  {
    if items == [] then []
    else ItemsPreOrder(items[..|items| - 1]) + ItemPreOrder(items[|items| - 1])
  }

  ghost function ItemPreOrder(item: Item): seq<Page>
    decreases item
  {
    match item
    case PointItem(_) => []
    case ChildItem(page) => PreOrder(page)
  }

  /** The pages' byte ranges follow one another from `lo` to `hi`. */
  ghost predicate PagesTile(pages: seq<Page>, lo: nat, hi: nat) {
    if pages == [] then lo == hi
    else
      var last := pages[|pages| - 1];
      last.offset + last.byteSize == hi && PagesTile(pages[..|pages| - 1], lo, last.offset)
  }

  lemma {:induction false} PagesTileAppend(a: seq<Page>, b: seq<Page>, lo: nat, mid: nat, hi: nat)
    requires PagesTile(a, lo, mid) && PagesTile(b, mid, hi)
    ensures PagesTile(a + b, lo, hi)
  {
    if b == [] {
      assert a + b == a;
    } else {
      var n := |b| - 1;
      PagesTileAppend(a, b[..n], lo, mid, b[n].offset);
      assert (a + b)[..|a + b| - 1] == a + b[..n];
    }
  }

  /** The assigned pages tile the hierarchy from its offset to the returned end, in pre-order. */
  lemma {:induction false} LaidTiles(page: Page, at: nat)
    requires at + TreeBytes(page) <= UINT64_MAX
    ensures PagesTile(PreOrder(Laid(page, at)), at, at + TreeBytes(page))
    decreases page
  {
    var laid := Laid(page, at);
    var next := at + laid.byteSize;
    LaidItemsTile(page.items, next);
    assert [laid][..0] == [];
    assert PagesTile([laid], at, next);
    PagesTileAppend([laid], ItemsPreOrder(laid.items), at, next, at + TreeBytes(page));
  }

  lemma {:induction false} LaidItemsTile(items: seq<Item>, next: nat)
    requires next + ItemsBytes(items) <= UINT64_MAX
    ensures PagesTile(ItemsPreOrder(LaidItems(items, next)), next, next + ItemsBytes(items))
    decreases items
  {
    if items != [] {
      var n := |items| - 1;
      var laid := LaidItems(items, next);
      assert laid[..n] == LaidItems(items[..n], next);
      LaidItemsTile(items[..n], next);
      LaidItemTiles(items[n], next + ItemsBytes(items[..n]));
      PagesTileAppend(ItemsPreOrder(laid[..n]), ItemPreOrder(laid[n]), next, next + ItemsBytes(items[..n]), next + ItemsBytes(items));
    }
  }

  lemma {:induction false} LaidItemTiles(item: Item, next: nat)
    requires next + ItemBytes(item) <= UINT64_MAX
    ensures PagesTile(ItemPreOrder(LaidItem(item, next)), next, next + ItemBytes(item))
    decreases item
  {
    if item.ChildItem? {
      LaidTiles(item.page, next);
    }
  }
}
