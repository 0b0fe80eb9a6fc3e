/** Choosing the point chunks a query needs (copc-reader/src/points.rs). */
module Selection {
  import opened Core
  import opened Voxel
  import opened Bounds
  import opened Sorting
  import opened Codec
  import opened Hierarchy
  import opened ChunkRanges

  /** `Resolution` carries the exclusive level its spacing works out to, always at least 1. */
  datatype LodSelection =
    | AllLevels
    | Resolution(levelMax: int32)
    | Level(level: int32)
    | LevelMinMax(min: int32, max: int32)

  datatype PointQuery = PointQuery(lod: LodSelection, bounds: Option<Box>)

  /** The octree cube of the COPC info record; its validation requires a positive half size. */
  datatype CopcInfo = CopcInfo(center: Vec3, halfsize: real) {
    predicate Valid() {
      halfsize > 0.0
    }
  }

  predicate QueryAccepted(q: PointQuery) {
    q.bounds.Some? ==> q.bounds.value.Ordered()
  }

  function LevelRange(lod: LodSelection): Result<(int32, int32)> {
    match lod
    case AllLevels => Ok((0, INT32_MAX))
    case Resolution(levelMax) => Ok((0, if levelMax < 1 then 1 else levelMax))
    case Level(level) =>
      if level < 0 || level == INT32_MAX then Err(InvalidInput) else Ok((level, level + 1))
    case LevelMinMax(min, max) =>
      if min < 0 || max < 0 || max < min then Err(InvalidInput) else Ok((min, max))
  }

  predicate BoxReaches(key: VoxelKey, info: CopcInfo, bounds: Option<Box>)
    requires key.Valid()
  {
    bounds.Some? ==> VoxelBounds(key, info.center, info.halfsize).Intersects(bounds.value)
  }

  predicate LevelInRange(e: Entry, q: PointQuery) {
    LevelRange(q.lod).Ok? && LevelRange(q.lod).value.0 <= e.key.level < LevelRange(q.lod).value.1
  }

  /** A chunk a query must read. */
  predicate Matches(e: Entry, info: CopcInfo, q: PointQuery) {
    e.HasPointData() && LevelInRange(e, q) && e.key.Valid() && BoxReaches(e.key, info, q.bounds)
  }

  function Selected(entries: seq<Entry>, info: CopcInfo, q: PointQuery): (s: seq<Entry>)
    ensures forall e :: e in s <==> e in entries && Matches(e, info, q)
  {
    if entries == [] then []
    else
      var n := |entries| - 1;
      Selected(entries[..n], info, q) + (if Matches(entries[n], info, q) then [entries[n]] else [])
  }

  /** The order of `sort_by_key(|entry| (entry.offset, entry.key))`. */
  predicate ChunkLess(a: Entry, b: Entry) {
    a.offset < b.offset || (a.offset == b.offset && KeyLess(a.key, b.key))
  }

  /** Entries whose chunks the selection can look at: sized chunks at valid keys. */
  predicate Selectable(entries: seq<Entry>, q: PointQuery) {
    forall e :: e in entries && e.HasPointData() ==>
      e.byteSize > 0 && (LevelInRange(e, q) && q.bounds.Some? ==> e.key.Valid())
  }

  /** The outcome of selecting from a list of entries. */
  function Select(entries: seq<Entry>, info: CopcInfo, q: PointQuery): Result<seq<Entry>> {
    if !QueryAccepted(q) then Err(InvalidInput)
    else
      var range :- LevelRange(q.lod);
      if Selectable(entries, q) then Ok(Sort(ChunkLess, Selected(entries, info, q))) else Err(InvalidData)
  }

  method SelectPointChunksFrom(entries: seq<Entry>, info: CopcInfo, q: PointQuery) returns (r: Result<seq<Entry>>)
    requires forall e :: e in entries && e.HasPointData() ==> e.key.Valid()
    ensures r.Ok? <==> Select(entries, info, q).Ok?
    ensures r.Ok? ==> r == Select(entries, info, q)
  {
    if !QueryAccepted(q) {
      return Err(InvalidInput);
    }
    var range := LevelRange(q.lod);
    if range.Err? {
      return Err(range.error);
    }
    var (levelMin, levelMax) := range.value;
    var chunks: seq<Entry> := [];
    for i := 0 to |entries|
      invariant Selectable(entries[..i], q)
      invariant chunks == Selected(entries[..i], info, q)
    {
      var entry := entries[i];
      assert entries[..i + 1][..i] == entries[..i];
      assert entry in entries;
      if !entry.HasPointData() {
        continue;
      }
      if entry.byteSize <= 0 {
        return Err(InvalidData);
      }
      if !(levelMin <= entry.key.level < levelMax) {
        continue;
      }
      if q.bounds.Some? {
        var nodeBounds := VoxelBounds(entry.key, info.center, info.halfsize);
        if !nodeBounds.Intersects(q.bounds.value) {
          continue;
        }
      }
      chunks := chunks + [entry];
    }
    assert entries[..|entries|] == entries;
    return Ok(Sort(ChunkLess, chunks));
  }

  // What selection means ----------------------------------------------------

  lemma ChunkLessIsOrder()
    ensures StrictWeakOrder(ChunkLess)
  {
  }

  /** Exactly the matching entries, in file order. */
  lemma SelectMembers(entries: seq<Entry>, info: CopcInfo, q: PointQuery)
    requires Select(entries, info, q).Ok?
    ensures forall e :: e in Select(entries, info, q).value <==> e in entries && Matches(e, info, q)
    ensures Sorted(ChunkLess, Select(entries, info, q).value)
  {
    hide Sort, Matches, KeyLess;
    ChunkLessIsOrder();
    SortSorts(ChunkLess, Selected(entries, info, q));
    PermutationMembers(Sort(ChunkLess, Selected(entries, info, q)), Selected(entries, info, q));
  }

  ghost predicate Ascending(s: seq<Entry>) {
    forall i, j :: 0 <= i < j < |s| ==> KeyLess(s[i].key, s[j].key)
  }

  lemma {:induction false} SelectedAscending(entries: seq<Entry>, info: CopcInfo, q: PointQuery)
    requires Ascending(entries)
    ensures Ascending(Selected(entries, info, q))
  {
    if entries != [] {
      hide KeyLess, Matches;
      var n := |entries| - 1;
      SelectedAscending(entries[..n], info, q);
      var before := Selected(entries[..n], info, q);
      forall i | 0 <= i < |before| ensures KeyLess(before[i].key, entries[n].key) {
        assert before[i] in before;
        var j :| 0 <= j < n && entries[j] == before[i];
      }
    }
  }

  lemma NonEmptyHasMember(s: seq<Entry>)
    ensures s != [] ==> exists e :: e in s
  {
    if s != [] {
      assert s[0] in s;
    }
  }

  /** Ascending lists with the same members are equal. */
  lemma {:induction false} AscendingUnique(a: seq<Entry>, b: seq<Entry>)
    requires Ascending(a) && Ascending(b) && forall e :: e in a <==> e in b
    ensures a == b
  {
    if a == [] {
      NonEmptyHasMember(b);
    } else {
      var n, m := |a| - 1, |b| - 1;
      assert a[n] in a && a[n] in b;
      assert b[m] in b && b[m] in a;
      LastIsGreatest(a, b[m]);
      LastIsGreatest(b, a[n]);
      assert a[n] == b[m];
      forall e ensures e in a[..n] <==> e in b[..m] {
        WithoutLast(a, e);
        WithoutLast(b, e);
      }
      AscendingUnique(a[..n], b[..m]);
      assert a == a[..n] + [a[n]] && b == b[..m] + [b[m]];
    }
  }

  lemma LastIsGreatest(a: seq<Entry>, e: Entry)
    requires Ascending(a) && e in a
    ensures e == a[|a| - 1] || KeyLess(e.key, a[|a| - 1].key)
  {
    var i :| 0 <= i < |a| && a[i] == e;
  }

  lemma WithoutLast(a: seq<Entry>, e: Entry)
    requires Ascending(a) && a != []
    ensures e in a[..|a| - 1] <==> e in a && e != a[|a| - 1]
  {
    var n := |a| - 1;
    if e in a[..n] {
      var i :| 0 <= i < n && a[i] == e;
      assert KeyLess(a[i].key, a[n].key);
    }
  }

  lemma SameSelected(g: EntryMap, h: EntryMap, info: CopcInfo, q: PointQuery)
    requires Keyed(g) && Keyed(h)
    requires forall e :: Matches(e, info, q) ==> ((e.key in g && g[e.key] == e) <==> (e.key in h && h[e.key] == e))
    ensures Selected(SortedValues(g), info, q) == Selected(SortedValues(h), info, q)
  {
    hide Matches, SortedValues, KeyLess;
    SortedValuesAre(g);
    SortedValuesAre(h);
    var a, b := Selected(SortedValues(g), info, q), Selected(SortedValues(h), info, q);
    SelectedAscending(SortedValues(g), info, q);
    SelectedAscending(SortedValues(h), info, q);
    forall e ensures e in a <==> e in b {
      ValuesMembers(g, e);
      ValuesMembers(h, e);
    }
    AscendingUnique(a, b);
  }

  lemma ValidSelectable(h: EntryMap, q: PointQuery)
    requires Keyed(h) && forall k :: k in h ==> h[k].Valid()
    ensures Selectable(SortedValues(h), q)
  {
    hide SortedValues;
    forall e | e in SortedValues(h) ensures e.Valid() {
      ValuesMembers(h, e);
    }
  }

  /** Two hierarchies with the same matching entries select the same sequence. */
  lemma SameMatchesSameSelection(g: EntryMap, h: EntryMap, info: CopcInfo, q: PointQuery)
    requires Keyed(g) && Keyed(h)
    requires forall k :: k in g ==> g[k].Valid()
    requires forall k :: k in h ==> h[k].Valid()
    requires forall e :: Matches(e, info, q) ==> ((e.key in g && g[e.key] == e) <==> (e.key in h && h[e.key] == e))
    ensures Select(SortedValues(g), info, q) == Select(SortedValues(h), info, q)
  {
    hide Matches, SortedValues, Sort, Selected, Selectable;
    SameSelected(g, h, info, q);
    ValidSelectable(g, q);
    ValidSelectable(h, q);
  }

  lemma ValuesMembers(h: EntryMap, e: Entry)
    requires Keyed(h)
    ensures e in SortedValues(h) <==> e.key in h && h[e.key] == e
  {
    hide SortedValues;
    SortedValuesAre(h);
    if e in SortedValues(h) {
      var i :| 0 <= i < |SortedValues(h)| && SortedValues(h)[i] == e;
    }
  }

  /** The chunks selected from a disjoint hierarchy follow one another in the file. */
  lemma SelectedChunksFollow(h: EntryMap, info: CopcInfo, q: PointQuery)
    requires Keyed(h) && MapDisjoint(h) && (forall k :: k in h ==> h[k].Valid())
    requires Select(SortedValues(h), info, q).Ok?
    ensures var chunks := Select(SortedValues(h), info, q).value;
      forall i, j :: 0 <= i < j < |chunks| ==> chunks[i].offset + chunks[i].byteSize <= chunks[j].offset
  {
    hide SortedValues, KeyLess, Sort, LevelInRange, BoxReaches;
    SelectMembers(SortedValues(h), info, q);
    SelectionDistinct(h, info, q);
    var chunks := Select(SortedValues(h), info, q).value;
    forall i, j | 0 <= i < j < |chunks| ensures chunks[i].offset + chunks[i].byteSize <= chunks[j].offset {
      var a, b := chunks[i], chunks[j];
      assert a in chunks && b in chunks;
      ValuesMembers(h, a);
      ValuesMembers(h, b);
      assert !ChunkLess(b, a);
      assert ChunksDisjoint(h[a.key], h[b.key]);
    }
  }

  lemma PermutedDistinct(a: seq<Entry>, b: seq<Entry>)
    requires multiset(a) == multiset(b) && DistinctEntryKeys(a)
    ensures DistinctEntryKeys(b)
  {
    PermutationMembers(a, b);
    forall i, j | 0 <= i < j < |b| ensures b[i].key != b[j].key {
      assert b[i] in b && b[j] in b;
      if b[i] == b[j] {
        TwiceInMultiset(b, i, j);
        var p, q := MultisetTwice(a, b[i]);
      } else {
        var p :| 0 <= p < |a| && a[p] == b[i];
        var q :| 0 <= q < |a| && a[q] == b[j];
        assert p != q;
      }
    }
  }

  lemma AscendingDistinct(a: seq<Entry>)
    requires Ascending(a)
    ensures DistinctEntryKeys(a)
  {
    forall i, j | 0 <= i < j < |a| ensures a[i].key != a[j].key {
      assert KeyLess(a[i].key, a[j].key);
      KeyLessIrreflexive(a[i].key);
    }
  }

  lemma SelectionDistinct(h: EntryMap, info: CopcInfo, q: PointQuery)
    requires Keyed(h) && Select(SortedValues(h), info, q).Ok?
    ensures DistinctEntryKeys(Select(SortedValues(h), info, q).value)
  {
    hide SortedValues, KeyLess, Sort, Matches, Selectable, Selected;
    SortedValuesAre(h);
    var list := Selected(SortedValues(h), info, q);
    SelectedAscending(SortedValues(h), info, q);
    AscendingDistinct(list);
    PermutedDistinct(list, Select(SortedValues(h), info, q).value);
  }

  lemma KeyLessIrreflexive(k: VoxelKey)
    ensures !KeyLess(k, k)
  {
  }

  // Pruning is safe ---------------------------------------------------------

  /** A chunk whose voxel holds a point of the query box reaches the box. */
  lemma PointKeepsChunk(key: VoxelKey, info: CopcInfo, box: Box, p: Vec3)
    requires key.Valid() && VoxelBounds(key, info.center, info.halfsize).Contains(p) && box.Contains(p)
    ensures BoxReaches(key, info, Some(box))
  {
  }
}
