/** The hierarchy page tree and its layout (copc-writer/src/hierarchy_pages.rs). */
module HierarchyPages {
  import opened Core
  import opened Voxel
  import opened Codec

  const HIERARCHY_PAGE_MAX_ENTRIES := 4096

  datatype Page = Page(key: VoxelKey, items: seq<Item>, offset: uint64, byteSize: uint64)

  datatype Item = PointItem(entry: Entry) | ChildItem(page: Page)

  function ItemKey(item: Item): VoxelKey {
    match item
    case PointItem(entry) => entry.key
    case ChildItem(page) => page.key
  }

  // The entries of a tree ---------------------------------------------------

  ghost function ItemsEntries(items: seq<Item>): seq<Entry> {
    if items == [] then []
    else ItemsEntries(items[..|items| - 1]) + ItemEntries(items[|items| - 1])
  }

  /** The point entries one item stands for. */
  ghost function ItemEntries(item: Item): seq<Entry> {
    match item
    case PointItem(entry) => [entry]
    case ChildItem(page) => ItemsEntries(page.items)
  }

  ghost function PointEntries(page: Page): seq<Entry> {
    ItemsEntries(page.items)
  }

  ghost predicate ItemBelow(item: Item, key: VoxelKey)
    requires key.Valid()
  {
    ItemKey(item).Valid() && Under(key, ItemKey(item))
  }

  /**
   The shape planning gives a page: up to 4096 items with distinct keys of the page's subtree;
   child pages sit at child keys, and a page with child pages keeps only its own point entry.
   */
  ghost predicate Planned(page: Page)
    decreases page
  {
    && page.key.Valid()
    && 1 <= |page.items| <= HIERARCHY_PAGE_MAX_ENTRIES
    && (forall i :: 0 <= i < |page.items| ==> ItemBelow(page.items[i], page.key))
    && (forall i, j :: 0 <= i < j < |page.items| ==> ItemKey(page.items[i]) != ItemKey(page.items[j]))
    && (forall i :: 0 <= i < |page.items| && page.items[i].ChildItem? ==>
          page.items[i].page.key.level == page.key.level + 1 && Planned(page.items[i].page))
    && (forall i, j :: 0 <= i < |page.items| && 0 <= j < |page.items| && page.items[i].ChildItem? && page.items[j].PointItem? ==>
          page.items[j].entry.key == page.key)
  }

  // Layout ------------------------------------------------------------------

  ghost function ItemsBytes(items: seq<Item>): nat {
    if items == [] then 0 else ItemsBytes(items[..|items| - 1]) + ItemBytes(items[|items| - 1])
  }

  ghost function ItemBytes(item: Item): nat {
    match item
    case PointItem(_) => 0
    case ChildItem(page) => TreeBytes(page)
  }

  /** Bytes of a page and of every page below it. */
  ghost function TreeBytes(page: Page): nat {
    HIERARCHY_ENTRY_BYTES * |page.items| + ItemsBytes(page.items)
  }

  /** The tree with offsets assigned in pre-order from `offset`. */
  ghost function Laid(page: Page, offset: nat): Page
    requires offset + TreeBytes(page) <= UINT64_MAX
    decreases page
  {
    var own := HIERARCHY_ENTRY_BYTES * |page.items|;
    Page(page.key, LaidItems(page.items, offset + own), offset, own)
  }

  ghost function LaidItems(items: seq<Item>, next: nat): (r: seq<Item>)
    requires next + ItemsBytes(items) <= UINT64_MAX
    ensures |r| == |items|
    decreases items
  {
    if items == [] then []
    else
      var n := |items| - 1;
      LaidItems(items[..n], next) + [LaidItem(items[n], next + ItemsBytes(items[..n]))]
  }

  ghost function LaidItem(item: Item, next: nat): Item
    requires next + ItemBytes(item) <= UINT64_MAX
    decreases item
  {
    match item
    case PointItem(_) => item
    case ChildItem(page) => ChildItem(Laid(page, next))
  }

  lemma {:induction false} ItemsBytesPrefix(items: seq<Item>, n: nat)
    requires n <= |items|
    ensures ItemsBytes(items[..n]) <= ItemsBytes(items)
    decreases |items|
  {
    if n < |items| {
      ItemsBytesPrefix(items[..|items| - 1], n);
      assert items[..|items| - 1][..n] == items[..n];
    } else {
      assert items[..n] == items;
    }
  }

  /** Laying out one more item. */
  lemma LaidItemsGrow(items: seq<Item>, next: nat, i: nat)
    requires i < |items| && next + ItemsBytes(items[..i]) <= UINT64_MAX
    ensures ItemsBytes(items[..i + 1]) == ItemsBytes(items[..i]) + ItemBytes(items[i])
    ensures next + ItemsBytes(items[..i + 1]) <= UINT64_MAX ==>
      LaidItems(items[..i + 1], next) == LaidItems(items[..i], next) + [LaidItem(items[i], next + ItemsBytes(items[..i]))]
  {
    assert items[..i + 1][..i] == items[..i];
  }

  lemma NoItemsLaid(next: nat)
    requires next <= UINT64_MAX
    ensures ItemsBytes([]) == 0 && LaidItems([], next) == []
  {
  }

  /** Assigns each page its offset and size; returns the tree and the first byte after it. */
  method AssignOffsets(page: Page, offset: uint64) returns (r: Result<(Page, uint64)>)
    ensures r.Ok? <==> offset + TreeBytes(page) <= UINT64_MAX
    ensures r.Ok? ==> r.value == (Laid(page, offset), offset + TreeBytes(page))
    decreases page
  {
    hide LaidItems, ItemsBytes;
    var byteSize := |page.items| * HIERARCHY_ENTRY_BYTES;
    if offset + byteSize > UINT64_MAX {
      return Err(InvalidInput);
    }
    var next: uint64 := offset + byteSize;
    ghost var start := next;
    var items: seq<Item> := [];
    NoItemsLaid(start);
    assert page.items[..0] == [];
    for i := 0 to |page.items|
      invariant start + ItemsBytes(page.items[..i]) == next
      invariant items == LaidItems(page.items[..i], start)
    {
      LaidItemsGrow(page.items, start, i);
      ItemsBytesPrefix(page.items, i + 1);
      match page.items[i]
      case PointItem(_) =>
        items := items + [page.items[i]];
      case ChildItem(child) =>
        var laid := AssignOffsets(child, next);
        if laid.Err? {
          return Err(laid.error);
        }
        items := items + [ChildItem(laid.value.0)];
        next := laid.value.1;
    }
    assert page.items[..|page.items|] == page.items;
    return Ok((Page(page.key, items, offset, byteSize), next));
  }

  // Writing -----------------------------------------------------------------

  /** The 32-byte entry standing for an item in its page. */
  function ItemEntry(item: Item): Result<Entry> {
    match item
    case PointItem(entry) => Ok(entry)
    case ChildItem(page) =>
      if page.byteSize > INT32_MAX then Err(InvalidInput)
      else Ok(Entry(page.key, page.offset, page.byteSize, -1))
  }

  predicate ItemWritable(item: Item) {
    ItemEntry(item).Ok? && ItemEntry(item).value.Valid()
  }

  function RowEntry(item: Item): (e: Entry)
    requires ItemWritable(item)
    ensures e.Valid() && e.key == ItemKey(item)
  {
    ItemEntry(item).value
  }

  predicate RowsWritable(items: seq<Item>) {
    forall i :: 0 <= i < |items| ==> ItemWritable(items[i])
  }

  function RowEntries(items: seq<Item>): (entries: seq<Entry>)
    requires RowsWritable(items)
    ensures |entries| == |items|
    ensures forall i :: 0 <= i < |items| ==> entries[i] == RowEntry(items[i])
  {
    seq(|items|, i requires 0 <= i < |items| => RowEntry(items[i]))
  }

  /** The offsets in the tree are where writing it from `at` reaches each page. */
  ghost predicate Writable(page: Page, at: nat)
    decreases page
  {
    && page.offset == at
    && RowsWritable(page.items)
    && ItemsWritable(page.items, at + HIERARCHY_ENTRY_BYTES * |page.items|)
  }

  ghost predicate ItemsWritable(items: seq<Item>, at: nat)
    decreases items
  {
    items == [] ||
    var n := |items| - 1;
    ItemsWritable(items[..n], at) && TreeWritable(items[n], at + ItemsBytes(items[..n]))
  }

  ghost predicate TreeWritable(item: Item, at: nat)
    decreases item
  {
    match item
    case PointItem(_) => true
    case ChildItem(page) => Writable(page, at)
  }

  /** The bytes of a page followed by those of the pages below it, in pre-order. */
  ghost function Image(page: Page, at: nat): (bytes: seq<byte>)
    requires Writable(page, at)
    ensures |bytes| == TreeBytes(page)
    decreases page
  {
    PageBytes(RowEntries(page.items)) + ItemsImage(page.items, at + HIERARCHY_ENTRY_BYTES * |page.items|)
  }

  ghost function ItemsImage(items: seq<Item>, at: nat): (bytes: seq<byte>)
    requires ItemsWritable(items, at)
    ensures |bytes| == ItemsBytes(items)
    decreases items
  {
    if items == [] then []
    else
      var n := |items| - 1;
      ItemsImage(items[..n], at) + ItemImage(items[n], at + ItemsBytes(items[..n]))
  }

  ghost function ItemImage(item: Item, at: nat): (bytes: seq<byte>)
    requires TreeWritable(item, at)
    ensures |bytes| == ItemBytes(item)
    decreases item
  {
    match item
    case PointItem(_) => []
    case ChildItem(page) => Image(page, at)
  }

  lemma {:induction false} ItemsWritablePrefix(items: seq<Item>, at: nat, n: nat)
    requires n <= |items| && ItemsWritable(items, at)
    ensures ItemsWritable(items[..n], at)
    decreases |items|
  {
    if n < |items| {
      ItemsWritablePrefix(items[..|items| - 1], at, n);
      assert items[..|items| - 1][..n] == items[..n];
    } else {
      assert items[..n] == items;
    }
  }

  /** The output stream: its position is the number of bytes written. */
  class Output {
    var bytes: seq<byte>

    constructor (start: seq<byte>)
      ensures bytes == start
    {
      bytes := start;
    }
  }

  lemma RowsGrow(items: seq<Item>, i: nat)
    requires i < |items| && RowsWritable(items[..i]) && ItemWritable(items[i])
    ensures RowsWritable(items[..i + 1])
    ensures PageBytes(RowEntries(items[..i + 1])) == PageBytes(RowEntries(items[..i])) + EntryBytes(RowEntry(items[i]))
  {
    var rows := RowEntries(items[..i + 1]);
    assert rows[..i] == RowEntries(items[..i]);
  }

  lemma TreesBegin(at: nat)
    ensures ItemsWritable([], at) && ItemsImage([], at) == []
  {
  }

  lemma TreesGrow(items: seq<Item>, i: nat, at: nat)
    requires i < |items| && ItemsWritable(items[..i], at)
    ensures ItemsWritable(items[..i + 1], at) <==> TreeWritable(items[i], at + ItemsBytes(items[..i]))
    ensures ItemsWritable(items[..i + 1], at) ==>
      ItemsImage(items[..i + 1], at) == ItemsImage(items[..i], at) + ItemImage(items[i], at + ItemsBytes(items[..i]))
  {
    assert items[..i + 1][..i] == items[..i];
  }

  method WriteRows(out: Output, items: seq<Item>) returns (r: Result<()>)
    modifies out
    ensures old(out.bytes) <= out.bytes
    ensures r.Ok? <==> RowsWritable(items)
    ensures r.Ok? ==> out.bytes == old(out.bytes) + PageBytes(RowEntries(items))
  {
    hide EntryBytes, RowEntries, PageBytes;
    ghost var before := out.bytes;
    assert PageBytes(RowEntries(items[..0])) == [] by {
      PageBytesEmpty();
    }
    for i := 0 to |items|
      invariant RowsWritable(items[..i])
      invariant out.bytes == before + PageBytes(RowEntries(items[..i]))
    {
      var entry := ItemEntry(items[i]);
      if entry.Err? {
        return Err(entry.error);
      }
      var buffer := new byte[HIERARCHY_ENTRY_BYTES];
      var written := WriteLe(entry.value, buffer);
      if written.Err? {
        return Err(written.error);
      }
      out.bytes := out.bytes + buffer[..];
      RowsGrow(items, i);
    }
    assert items[..|items|] == items;
    return Ok(());
  }

  lemma PageBytesEmpty()
    ensures PageBytes([]) == []
  {
  }

  /** Writes a page tree; succeeds exactly on trees laid out for the stream's position. */
  method WritePageTree(out: Output, page: Page) returns (r: Result<()>)
    modifies out
    ensures old(out.bytes) <= out.bytes
    ensures r.Ok? <==> Writable(page, |old(out.bytes)|)
    ensures r.Ok? ==> out.bytes == old(out.bytes) + Image(page, |old(out.bytes)|)
    decreases page
  {
    hide PageBytes, RowEntries, RowsWritable, ItemsWritable, ItemsImage, ItemsBytes;
    if |out.bytes| != page.offset {
      return Err(InvalidInput);
    }
    var rows := WriteRows(out, page.items);
    if rows.Err? {
      return rows;
    }
    ghost var after := out.bytes;
    ghost var at := |after|;
    assert page.items[..0] == [];
    TreesBegin(at);
    for i := 0 to |page.items|
      invariant after <= out.bytes
      invariant ItemsWritable(page.items[..i], at)
      invariant out.bytes == after + ItemsImage(page.items[..i], at)
    {
      TreesGrow(page.items, i, at);
      if page.items[i].ChildItem? {
        var result := WritePageTree(out, page.items[i].page);
        if result.Err? {
          if ItemsWritable(page.items, at) {
            ItemsWritablePrefix(page.items, at, i + 1);
          }
          return result;
        }
      }
    }
    assert page.items[..|page.items|] == page.items;
    return Ok(());
  }
}
