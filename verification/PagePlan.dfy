/** Planning which entries share a hierarchy page (copc-writer/src/hierarchy_pages.rs). */
module PagePlan {
  import opened Core
  import opened Voxel
  import opened Codec
  import opened Hierarchy
  import opened Dealing
  import opened HierarchyPages

  /** Keys the planner's shift is defined on. */
  predicate Plannable(entries: seq<Entry>) {
    forall i :: 0 <= i < |entries| ==> entries[i].key.Valid() && entries[i].key.level <= 31
  }

  predicate AllUnder(entries: seq<Entry>, key: VoxelKey)
    requires Plannable(entries) && key.Valid()
  {
    forall i :: 0 <= i < |entries| ==> Under(key, entries[i].key)
  }

  /** `key_contains`: the level test, then one shift per axis. */
  predicate KeyContains(ancestor: VoxelKey, key: VoxelKey)
    requires ancestor.Valid() && key.Valid() && key.level < ancestor.level + 32
  {
    if key.level < ancestor.level then false
    else
      var shift := key.level - ancestor.level;
      Shr(key.x, shift) == ancestor.x && Shr(key.y, shift) == ancestor.y && Shr(key.z, shift) == ancestor.z
  }

  /** Where an entry goes: 8 for the page's own entry, else the octant it lies under. */
  ghost function Slot(key: VoxelKey, e: Entry): (o: nat)
    requires key.Valid() && e.key.Valid() && Under(key, e.key)
    ensures o <= 8
  {
    if e.key.level == key.level then 8 else OctantOf(key, e.key)
  }

  ghost function Bucket(entries: seq<Entry>, key: VoxelKey, o: nat): (b: seq<Entry>)
    requires Plannable(entries) && key.Valid() && AllUnder(entries, key)
    ensures |b| <= |entries|
    ensures forall e :: e in b <==> e in entries && e.key.Valid() && Under(key, e.key) && Slot(key, e) == o
  {
    if entries == [] then []
    else
      var n := |entries| - 1;
      Bucket(entries[..n], key, o) + (if Slot(key, entries[n]) == o then [entries[n]] else [])
  }

  ghost function Buckets(entries: seq<Entry>, key: VoxelKey): (bs: seq<seq<Entry>>)
    requires Plannable(entries) && key.Valid() && AllUnder(entries, key)
    ensures |bs| == 9
  {
    seq(9, o requires 0 <= o < 9 => Bucket(entries, key, o))
  }

  lemma BucketsUpdate(entries: seq<Entry>, key: VoxelKey)
    requires entries != [] && Plannable(entries) && key.Valid() && AllUnder(entries, key)
    ensures var n := |entries| - 1; var s := Slot(key, entries[n]); var shorter := Buckets(entries[..n], key);
      Buckets(entries, key) == shorter[s := shorter[s] + [entries[n]]]
  {
    hide Bucket, Slot, Under;
    var n := |entries| - 1;
    var s := Slot(key, entries[n]);
    var grown, shorter := Buckets(entries, key), Buckets(entries[..n], key);
    BucketsGrow(entries, key);
    forall i | 0 <= i < 9 ensures grown[i] == shorter[s := shorter[s] + [entries[n]]][i] {
      assert grown[i] == Bucket(entries, key, i);
    }
  }

  lemma {:induction false} BucketsConserve(entries: seq<Entry>, key: VoxelKey)
    requires Plannable(entries) && key.Valid() && AllUnder(entries, key)
    ensures Union(Buckets(entries, key)) == multiset(entries)
  {
    hide Bucket, Slot, Under;
    if entries == [] {
      BucketsOfNone(key);
      UnionEmpty(Buckets(entries, key));
    } else {
      hide Union, Buckets, VoxelKey.Valid;
      var n := |entries| - 1;
      var s := Slot(key, entries[n]);
      var shorter := Buckets(entries[..n], key);
      BucketsConserve(entries[..n], key);
      BucketsUpdate(entries, key);
      UnionUpdate(shorter, s, shorter[s] + [entries[n]]);
      assert entries == entries[..n] + [entries[n]];
      MultisetCancel(Union(Buckets(entries, key)), Union(shorter), multiset(shorter[s]), multiset{entries[n]});
    }
  }

  lemma {:induction false} BucketDistinct(entries: seq<Entry>, key: VoxelKey, o: nat)
    requires Plannable(entries) && key.Valid() && AllUnder(entries, key) && DistinctEntryKeys(entries)
    ensures DistinctEntryKeys(Bucket(entries, key, o))
  {
    hide Bucket, Slot, Under, VoxelKey.Valid;
    if entries == [] {
      BucketsOfNone(key);
    } else {
      var n := |entries| - 1;
      BucketDistinct(entries[..n], key, o);
      BucketsGrow(entries, key);
      var b := Bucket(entries[..n], key, o);
      forall e | e in b ensures e.key != entries[n].key {
        var i :| 0 <= i < n && entries[i] == e;
      }
    }
  }

  lemma SameKeyTwice(own: seq<Entry>, key: VoxelKey)
    requires |own| > 1 && forall i :: 0 <= i < |own| ==> own[i].key == key
    ensures !DistinctEntryKeys(own)
  {
    assert own[0].key == own[1].key;
  }

  /** The page's own entry is the only one at its key's level. */
  lemma OwnEntry(entries: seq<Entry>, key: VoxelKey)
    requires Plannable(entries) && key.Valid() && AllUnder(entries, key) && DistinctEntryKeys(entries)
    ensures |Bucket(entries, key, 8)| <= 1
    ensures forall e :: e in Bucket(entries, key, 8) ==> e.key == key
  {
    BucketDistinct(entries, key, 8);
    var own := Bucket(entries, key, 8);
    forall e | e in own ensures e.key == key {
      UnderAntisymmetric(key, e.key);
    }
    assert forall i :: 0 <= i < |own| ==> own[i] in own;
    assert forall i :: 0 <= i < |own| ==> own[i].key == key;
    if |own| > 1 {
      SameKeyTwice(own, key);
    }
  }

  lemma BucketUnderChild(entries: seq<Entry>, key: VoxelKey, o: nat)
    requires Plannable(entries) && key.Valid() && AllUnder(entries, key) && o < 8
    requires Bucket(entries, key, o) != []
    ensures key.level <= 30 && key.Child(o).Ok?
    ensures Plannable(Bucket(entries, key, o)) && AllUnder(Bucket(entries, key, o), key.Child(o).value)
  {
    var b := Bucket(entries, key, o);
    assert b[0] in b;
    ChildExists(key, o);
    forall i | 0 <= i < |b| ensures b[i].key.Valid() && b[i].key.level <= 31 && Under(key.Child(o).value, b[i].key) {
      assert b[i] in b;
      UnderOneChild(key, b[i].key, o);
    }
  }

  // One pass over the entries -----------------------------------------------

  /** The octant of the child page that takes an entry, if any child does. */
  method FindOctant(key: VoxelKey, e: Entry) returns (r: Result<nat>)
    requires key.Valid() && key.level <= 31 && e.key.Valid() && e.key.level <= 31 && e.key != key
    ensures r.Ok? <==> Under(key, e.key)
    ensures r.Ok? ==> r.value == Slot(key, e) < 8
  {
    if Under(key, e.key) && e.key.level == key.level {
      UnderAntisymmetric(key, e.key);
    }
    for octant := 0 to 8
      invariant octant > 0 ==> key.Child(octant - 1).Ok?
      invariant Under(key, e.key) ==> e.key.level > key.level && octant <= OctantOf(key, e.key)
    {
      if Under(key, e.key) {
        ChildExists(key, octant);
        UnderOneChild(key, e.key, octant);
      }
      var child := key.Child(octant);
      if child.Err? {
        return Err(child.error);
      }
      if KeyContains(child.value, e.key) {
        ChildIsUnder(key, octant);
        UnderTransitive(key, child.value, e.key);
        UnderOneChild(key, e.key, octant);
        return Ok(octant);
      }
    }
    return Err(InvalidInput);
  }

  /** Sorts the entries of an oversized page into its own entry and eight child buckets. */
  method SplitEntries(entries: seq<Entry>, key: VoxelKey) returns (r: Result<(Option<Entry>, seq<seq<Entry>>)>)
    requires Plannable(entries) && key.Valid() && key.level <= 31
    ensures r.Ok? <==> AllUnder(entries, key)
    ensures r.Ok? ==> |r.value.1| == 8 && forall o :: 0 <= o < 8 ==> r.value.1[o] == Bucket(entries, key, o)
    ensures r.Ok? && DistinctEntryKeys(entries) ==>
      (match r.value.0 case None => [] case Some(e) => [e]) == Bucket(entries, key, 8)
  {
    hide Bucket, Under, OctantOf, DistinctEntryKeys, VoxelKey.Valid, Slot;
    var point: Option<Entry> := None;
    var children: seq<seq<Entry>> := [[], [], [], [], [], [], [], []];
    BucketsOfNone(key);
    assert entries[..0] == [];
    for i := 0 to |entries|
      invariant AllUnder(entries[..i], key)
      invariant |children| == 8 && forall o :: 0 <= o < 8 ==> children[o] == Bucket(entries[..i], key, o)
      invariant point == LastOf(Bucket(entries[..i], key, 8))
    {
      var entry := entries[i];
      assert entries[..i + 1][..i] == entries[..i];
      if entry.key == key {
        UnderReflexive(key);
        SlotOfOwn(key, entry);
        BucketsGrow(entries[..i + 1], key);
        point := Some(entry);
      } else {
        var octant := FindOctant(key, entry);
        if octant.Err? {
          return Err(octant.error);
        }
        assert AllUnder(entries[..i + 1], key);
        BucketsGrow(entries[..i + 1], key);
        children := children[octant.value := children[octant.value] + [entry]];
      }
    }
    assert entries[..|entries|] == entries;
    if DistinctEntryKeys(entries) {
      OwnEntry(entries, key);
    }
    return Ok((point, children));
  }

  lemma SlotOfOwn(key: VoxelKey, e: Entry)
    requires key.Valid() && e.key == key && Under(key, key)
    ensures Slot(key, e) == 8
  {
  }

  ghost function LastOf(b: seq<Entry>): Option<Entry> {
    if b == [] then None else Some(b[|b| - 1])
  }

  lemma BucketsOfNone(key: VoxelKey)
    requires key.Valid()
    ensures forall o: nat :: Bucket([], key, o) == []
  {
  }

  lemma BucketsGrow(entries: seq<Entry>, key: VoxelKey)
    requires entries != [] && Plannable(entries) && key.Valid() && AllUnder(entries, key)
    ensures var n := |entries| - 1; var s := Slot(key, entries[n]);
      forall o: nat :: Bucket(entries, key, o) == Bucket(entries[..n], key, o) + (if s == o then [entries[n]] else [])
  {
  }

  // The plan ----------------------------------------------------------------

  /** A plan of the entries: the shape of a page tree holding exactly them. */
  ghost predicate PlanOf(page: Page, entries: seq<Entry>, key: VoxelKey) {
    page.key == key && Planned(page) && multiset(PointEntries(page)) == multiset(entries)
  }

  lemma {:induction false} PointItemsEntries(items: seq<Item>, entries: seq<Entry>)
    requires |items| == |entries|
    requires forall i :: 0 <= i < |items| ==> items[i] == PointItem(entries[i])
    ensures ItemsEntries(items) == entries
  {
    if items != [] {
      var n := |items| - 1;
      PointItemsEntries(items[..n], entries[..n]);
      assert entries == entries[..n] + [entries[n]];
    }
  }

  /** A page small enough to hold its entries itself. */
  lemma LeafPlan(page: Page, entries: seq<Entry>, key: VoxelKey)
    requires key.Valid() && Plannable(entries) && AllUnder(entries, key) && DistinctEntryKeys(entries)
    requires 1 <= |entries| <= HIERARCHY_PAGE_MAX_ENTRIES && |page.items| == |entries| && page.key == key
    requires forall i :: 0 <= i < |entries| ==> page.items[i] == PointItem(entries[i])
    ensures PlanOf(page, entries, key)
  {
    PointItemsEntries(page.items, entries);
  }

  /** The items of a split page after the octants before `upto`. */
  ghost predicate SplitItems(items: seq<Item>, entries: seq<Entry>, key: VoxelKey, upto: nat)
    requires Plannable(entries) && key.Valid() && AllUnder(entries, key)
  {
    && upto <= 8 && |items| <= 1 + upto
    && multiset(ItemsEntries(items)) == multiset(Bucket(entries, key, 8)) + Union(Buckets(entries, key)[..upto])
    && (forall i :: 0 <= i < |items| && items[i].PointItem? ==> i == 0 && items[i].entry.key == key)
    && (forall i :: 0 <= i < |items| && items[i].ChildItem? ==>
          && Planned(items[i].page) && items[i].page.key.level == key.level + 1
          && Under(key, items[i].page.key) && OctantOf(key, items[i].page.key) < upto)
    && (forall i, j :: 0 <= i < j < |items| ==> ItemKey(items[i]) != ItemKey(items[j]))
  }

  lemma SplitBegin(items: seq<Item>, entries: seq<Entry>, key: VoxelKey)
    requires Plannable(entries) && key.Valid() && AllUnder(entries, key) && DistinctEntryKeys(entries)
    requires |items| == |Bucket(entries, key, 8)|
    requires forall i :: 0 <= i < |items| ==> items[i] == PointItem(Bucket(entries, key, 8)[i])
    ensures SplitItems(items, entries, key, 0)
  {
    OwnEntry(entries, key);
    PointItemsEntries(items, Bucket(entries, key, 8));
    assert Buckets(entries, key)[..0] == [];
    forall i | 0 <= i < |items| ensures items[i].entry.key == key {
      assert items[i].entry in Bucket(entries, key, 8);
    }
  }

  lemma SplitSkip(items: seq<Item>, entries: seq<Entry>, key: VoxelKey, o: nat)
    requires Plannable(entries) && key.Valid() && AllUnder(entries, key) && o < 8
    requires SplitItems(items, entries, key, o) && Bucket(entries, key, o) == []
    ensures SplitItems(items, entries, key, o + 1)
  {
    UnionPrefix(Buckets(entries, key), o);
  }

  lemma SplitAdd(items: seq<Item>, entries: seq<Entry>, key: VoxelKey, o: nat, child: Page)
    requires Plannable(entries) && key.Valid() && AllUnder(entries, key) && o < 8
    requires SplitItems(items, entries, key, o) && key.Child(o).Ok?
    requires PlanOf(child, Bucket(entries, key, o), key.Child(o).value)
    ensures SplitItems(items + [ChildItem(child)], entries, key, o + 1)
  {
    hide Bucket, Union, Planned, ItemsEntries, Under, OctantOf, VoxelKey.Valid, VoxelKey.Child;
    UnionPrefix(Buckets(entries, key), o);
    ChildIsUnder(key, o);
    EntriesWithChild(items, child);
  }

  lemma EntriesWithChild(items: seq<Item>, child: Page)
    ensures ItemsEntries(items + [ChildItem(child)]) == ItemsEntries(items) + PointEntries(child)
  {
    assert (items + [ChildItem(child)])[..|items|] == items;
  }

  lemma SplitFinish(page: Page, entries: seq<Entry>, key: VoxelKey)
    requires Plannable(entries) && key.Valid() && AllUnder(entries, key) && DistinctEntryKeys(entries)
    requires entries != [] && page.key == key && SplitItems(page.items, entries, key, 8)
    ensures PlanOf(page, entries, key)
  {
    hide Union, Bucket;
    var bs := Buckets(entries, key);
    BucketsConserve(entries, key);
    UnionPrefix(bs, 8);
    assert bs[..9] == bs;
    assert multiset(PointEntries(page)) == multiset(entries);
    assert entries[0] in multiset(entries);
    assert ItemsEntries([]) == [];
    UnderReflexive(key);
    forall i | 0 <= i < |page.items| ensures ItemBelow(page.items[i], key) {
    }
  }

  // The shape, exactly ------------------------------------------------------

  /** The entries stand in the same order in `whole`. */
  ghost predicate Follows(part: seq<Entry>, whole: seq<Entry>) {
    forall i, j :: 0 <= i < j < |part| ==> InTurn(part[i], part[j], whole)
  }

  ghost predicate InTurn(d: Entry, e: Entry, whole: seq<Entry>) {
    exists a, b :: 0 <= a < b < |whole| && whole[a] == d && whole[b] == e
  }

  /** The page's own entry first, then its child pages by octant: x in the lowest bit, then y, then z. */
  ghost function Place(key: VoxelKey, item: Item): int {
    match item
    case PointItem(_) => 0
    case ChildItem(page) => 1 + (page.key.x - 2 * key.x) + 2 * (page.key.y - 2 * key.y) + 4 * (page.key.z - 2 * key.z)
  }

  ghost predicate ItemsInTurn(items: seq<Item>, key: VoxelKey, upto: int) {
    && (forall i, j :: 0 <= i < j < |items| ==> Place(key, items[i]) < Place(key, items[j]))
    && forall i :: 0 <= i < |items| ==> 0 <= Place(key, items[i]) <= upto
  }

  /**
   A tree of up to 4096 entries is one page holding them in the order given; a larger one holds its own entry and one
   child page for each octant with entries, in that order.
   */
  ghost predicate Canonical(page: Page, entries: seq<Entry>)
    decreases page
  {
    if |PointEntries(page)| <= 4096 then
      (forall i :: 0 <= i < |page.items| ==> page.items[i].PointItem?) && Follows(PointEntries(page), entries)
    else
      ItemsInTurn(page.items, page.key, 8)
      && forall i :: 0 <= i < |page.items| && page.items[i].ChildItem? ==>
           PointEntries(page.items[i].page) != [] && Canonical(page.items[i].page, entries)
  }

  lemma FollowsTransitive(a: seq<Entry>, b: seq<Entry>, c: seq<Entry>)
    requires Follows(a, b) && Follows(b, c)
    ensures Follows(a, c)
  {
    forall i, j | 0 <= i < j < |a| ensures InTurn(a[i], a[j], c) {
      assert InTurn(a[i], a[j], b);
      var p, q :| 0 <= p < q < |b| && b[p] == a[i] && b[q] == a[j];
      assert InTurn(b[p], b[q], c);
    }
  }

  lemma {:induction false} CanonicalWidens(page: Page, part: seq<Entry>, whole: seq<Entry>)
    requires Canonical(page, part) && Follows(part, whole)
    ensures Canonical(page, whole)
    decreases page
  {
    hide Follows, PointEntries, ItemsInTurn;
    if |PointEntries(page)| <= 4096 {
      FollowsTransitive(PointEntries(page), part, whole);
    } else {
      forall i | 0 <= i < |page.items| && page.items[i].ChildItem? ensures Canonical(page.items[i].page, whole) {
        CanonicalWidens(page.items[i].page, part, whole);
      }
    }
  }

  lemma {:induction false} BucketFollows(entries: seq<Entry>, key: VoxelKey, o: nat)
    requires Plannable(entries) && key.Valid() && AllUnder(entries, key)
    ensures Follows(Bucket(entries, key, o), entries)
  {
    hide Bucket, Slot, Under, VoxelKey.Valid;
    if entries == [] {
      BucketsOfNone(key);
    } else {
      var n := |entries| - 1;
      BucketFollows(entries[..n], key, o);
      BucketsGrow(entries, key);
      var b := Bucket(entries[..n], key, o);
      forall i, j | 0 <= i < j < |Bucket(entries, key, o)|
        ensures InTurn(Bucket(entries, key, o)[i], Bucket(entries, key, o)[j], entries)
      {
        if j < |b| {
          assert InTurn(b[i], b[j], entries[..n]);
          var p, q :| 0 <= p < q < n && entries[..n][p] == b[i] && entries[..n][q] == b[j];
          assert entries[p] == b[i] && entries[q] == b[j];
        } else {
          assert b[i] in b && b[i] in entries[..n];
          var p :| 0 <= p < n && entries[..n][p] == b[i];
          assert entries[p] == b[i] && entries[n] == entries[n];
        }
      }
    }
  }

  lemma LeafIsCanonical(page: Page, entries: seq<Entry>)
    requires |entries| <= 4096 && |page.items| == |entries|
    requires forall i :: 0 <= i < |entries| ==> page.items[i] == PointItem(entries[i])
    ensures Canonical(page, entries)
  {
    PointItemsEntries(page.items, entries);
    forall i, j | 0 <= i < j < |entries| ensures InTurn(entries[i], entries[j], entries) {
    }
  }

  /** The items of a split page so far, each child page canonical. */
  ghost predicate SplitCanonical(items: seq<Item>, key: VoxelKey, entries: seq<Entry>, upto: nat) {
    && ItemsInTurn(items, key, upto)
    && forall i :: 0 <= i < |items| && items[i].ChildItem? ==>
         PointEntries(items[i].page) != [] && Canonical(items[i].page, entries)
  }

  lemma SplitCanonicalBegins(items: seq<Item>, key: VoxelKey, entries: seq<Entry>)
    requires |items| <= 1 && forall i :: 0 <= i < |items| ==> items[i].PointItem?
    ensures SplitCanonical(items, key, entries, 0)
  {
  }

  lemma SplitCanonicalSkips(items: seq<Item>, key: VoxelKey, entries: seq<Entry>, o: nat)
    requires SplitCanonical(items, key, entries, o)
    ensures SplitCanonical(items, key, entries, o + 1)
  {
    hide Canonical;
  }

  lemma SplitCanonicalGrows(items: seq<Item>, key: VoxelKey, entries: seq<Entry>, o: nat, child: Page)
    requires Plannable(entries) && key.Valid() && AllUnder(entries, key) && o < 8 && key.Child(o).Ok?
    requires SplitCanonical(items, key, entries, o) && Bucket(entries, key, o) != []
    requires PlanOf(child, Bucket(entries, key, o), key.Child(o).value) && Canonical(child, Bucket(entries, key, o))
    ensures SplitCanonical(items + [ChildItem(child)], key, entries, o + 1)
  {
    hide Bucket, Canonical, Planned, PointEntries, Under;
    BucketFollows(entries, key, o);
    CanonicalWidens(child, Bucket(entries, key, o), entries);
    ChildExactly(key, o);
    assert Place(key, ChildItem(child)) == o + 1;
    SameMultisetEmpty(PointEntries(child), Bucket(entries, key, o));
  }

  lemma SameMultisetEmpty(a: seq<Entry>, b: seq<Entry>)
    requires multiset(a) == multiset(b) && b != []
    ensures a != [] && |a| == |b|
  {
    assert |multiset(a)| == |a| && |multiset(b)| == |b|;
  }

  lemma SplitIsCanonical(page: Page, entries: seq<Entry>)
    requires |entries| > 4096 && PlanOf(page, entries, page.key) && SplitCanonical(page.items, page.key, entries, 8)
    ensures Canonical(page, entries)
  {
    hide Planned, PointEntries;
    SameMultisetEmpty(PointEntries(page), entries);
  }

  /**
   Plans the pages of a subtree. It succeeds exactly when there is an entry to write and every entry of an
   oversized page lies under the page's key; for distinct keys the plan then holds exactly the entries.
   */
  method PlanHierarchyPages(entries: seq<Entry>, key: VoxelKey) returns (r: Result<Page>)
    requires Plannable(entries) && key.Valid() && key.level <= 31
    ensures r.Ok? <==> entries != [] && (|entries| <= 4096 || AllUnder(entries, key))
    ensures r.Ok? && AllUnder(entries, key) && DistinctEntryKeys(entries) ==> PlanOf(r.value, entries, key) && Canonical(r.value, entries)
    decreases 31 - key.level
  {
    hide Bucket, SplitItems, PlanOf, Under, VoxelKey.Child, Planned, DistinctEntryKeys, Canonical, SplitCanonical;
    if entries == [] {
      return Err(InvalidInput);
    }
    if |entries| <= HIERARCHY_PAGE_MAX_ENTRIES {
      var items := seq(|entries|, i requires 0 <= i < |entries| => PointItem(entries[i]));
      var page := Page(key, items, 0, 0);
      if AllUnder(entries, key) && DistinctEntryKeys(entries) {
        LeafPlan(page, entries, key);
        LeafIsCanonical(page, entries);
      }
      return Ok(page);
    }
    var split := SplitEntries(entries, key);
    if split.Err? {
      return Err(split.error);
    }
    var (point, children) := split.value;
    var items: seq<Item> := match point case None => [] case Some(e) => [PointItem(e)];
    if DistinctEntryKeys(entries) {
      SplitBegin(items, entries, key);
      SplitCanonicalBegins(items, key, entries);
    }
    for octant := 0 to 8
      invariant |items| <= 1 + octant
      invariant DistinctEntryKeys(entries) ==> SplitItems(items, entries, key, octant) && SplitCanonical(items, key, entries, octant)
    {
      if children[octant] == [] {
        if DistinctEntryKeys(entries) {
          SplitSkip(items, entries, key, octant);
          SplitCanonicalSkips(items, key, entries, octant);
        }
      } else {
        // A bucket lies under its child key, so planning it cannot fail.
        BucketUnderChild(entries, key, octant);
        var child := PlanHierarchyPages(children[octant], key.Child(octant).value);
        if DistinctEntryKeys(entries) {
          BucketDistinct(entries, key, octant);
          SplitAdd(items, entries, key, octant, child.value);
          SplitCanonicalGrows(items, key, entries, octant, child.value);
        }
        items := items + [ChildItem(child.value)];
      }
    }
    if |items| > HIERARCHY_PAGE_MAX_ENTRIES {
      return Err(InvalidInput);
    }
    var page := Page(key, items, 0, 0);
    if DistinctEntryKeys(entries) {
      SplitFinish(page, entries, key);
      SplitIsCanonical(page, entries);
    }
    return Ok(page);
  }
}
