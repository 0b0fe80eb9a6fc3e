/** The lazy reader: hierarchy pages fetched as queries reach them (copc-reader/src/ranged.rs). */
module RangeReader {
  import opened Core
  import opened Voxel
  import opened Bounds
  import opened Codec
  import opened Hierarchy
  import opened ChunkRanges
  import opened Loader
  import opened Selection

  /** A child-page entry of a page that was accepted. */
  type PageEntry = e: Entry | e.Valid() && e.IsChildPage() witness Entry(ROOT, 1, 32, -1)

  /** What does not change while a reader is open. */
  datatype Source = Source(env: Env, info: CopcInfo, numberOfPoints: uint64)

  /** What queries change; `fetched` records the pages read, in order. */
  datatype LazyState = LazyState(
    hierarchy: EntryMap, pending: seq<PageEntry>, visited: set<ByteRange>, totalBytes: nat,
    loadedPoints: nat, ranges: RangeMap, fetched: seq<ByteRange>)

  /** The state a call leaves behind, and whether it returned Ok. */
  datatype Outcome = Outcome(state: LazyState, ok: bool)

  const FRESH := LazyState(map[], [], {}, 0, 0, map[], [])

  /** One entry of a page being loaded. */
  function AbsorbEntry(src: Source, st: LazyState, e: Entry): (o: Outcome)
    ensures o.state.totalBytes == st.totalBytes && o.state.visited == st.visited && o.state.fetched == st.fetched
  {
    if !EntryAccepted(src.env, e) || !Insertable(st.hierarchy, e) then Outcome(st, false)
    else if e.HasPointData() then
      match InsertRange(st.ranges, e)
      case Err(_) => Outcome(st, false)
      case Ok(ranges) =>
        var kept := st.(ranges := ranges, hierarchy := st.hierarchy[e.key := e]);
        if st.loadedPoints + e.pointCount > UINT64_MAX then Outcome(kept, false)
        else Outcome(kept.(loadedPoints := st.loadedPoints + e.pointCount), true)
    else if e.IsChildPage() then
      Outcome(st.(hierarchy := st.hierarchy[e.key := e], pending := st.pending + [e]), true)
    else
      Outcome(st.(hierarchy := st.hierarchy[e.key := e]), true)
  }

  function AbsorbEntries(src: Source, st: LazyState, entries: seq<Entry>): (o: Outcome)
    ensures o.state.totalBytes == st.totalBytes && o.state.visited == st.visited && o.state.fetched == st.fetched
  {
    if entries == [] then Outcome(st, true)
    else
      var before := AbsorbEntries(src, st, entries[..|entries| - 1]);
      if before.ok then AbsorbEntry(src, before.state, entries[|entries| - 1]) else before
  }

  /** The point total never passes the header's, and meets it once no page is pending. */
  predicate CountsAgree(src: Source, st: LazyState) {
    st.loadedPoints <= src.numberOfPoints && (st.pending == [] ==> st.loadedPoints == src.numberOfPoints)
  }

  /** `load_page`. A failed load leaves the range marked as visited. */
  function LoadPage(src: Source, st: LazyState, r: ByteRange): (o: Outcome)
    ensures o.ok ==> o.state == st || (st.totalBytes < o.state.totalBytes <= MAX_HIERARCHY_TOTAL_BYTES)
  {
    if r in st.visited then Outcome(st, true)
    else
      var marked := st.(visited := st.visited + {r});
      if r.size == 0 || r.size % HIERARCHY_ENTRY_BYTES != 0 || r.size > MAX_HIERARCHY_PAGE_BYTES then Outcome(marked, false)
      else
        var charged := marked.(totalBytes := st.totalBytes + r.size);
        if charged.totalBytes > MAX_HIERARCHY_TOTAL_BYTES || !InFile(src.env.bytes, r.offset, r.size) then Outcome(charged, false)
        else
          var read := charged.(fetched := st.fetched + [r]);
          match PageAt(src.env, r)
          case Err(_) => Outcome(read, false)
          case Ok(entries) =>
            var absorbed := AbsorbEntries(src, read, entries);
            Outcome(absorbed.state, absorbed.ok && CountsAgree(src, absorbed.state))
  }

  /** Loads a batch of pages until one fails. */
  function LoadPages(src: Source, st: LazyState, pages: seq<PageEntry>): (o: Outcome)
    ensures o.ok ==> o.state == st || (st.totalBytes < o.state.totalBytes <= MAX_HIERARCHY_TOTAL_BYTES)
  {
    if pages == [] then Outcome(st, true)
    else
      var before := LoadPages(src, st, pages[..|pages| - 1]);
      if before.ok then LoadPage(src, before.state, RangeOf(pages[|pages| - 1])) else before
  }

  /** `page_may_match`, for a query whose level range is known. */
  predicate PageMayMatch(key: VoxelKey, info: CopcInfo, q: PointQuery)
    requires key.Valid() && LevelRange(q.lod).Ok?
  {
    key.level < LevelRange(q.lod).value.1 && BoxReaches(key, info, q.bounds)
  }

  function Relevant(pending: seq<PageEntry>, info: CopcInfo, q: PointQuery, wanted: bool): (s: seq<PageEntry>)
    requires LevelRange(q.lod).Ok?
    ensures forall e :: e in s <==> e in pending && PageMayMatch(e.key, info, q) == wanted
  {
    if pending == [] then []
    else
      var n := |pending| - 1;
      Relevant(pending[..n], info, q, wanted) +
      (if PageMayMatch(pending[n].key, info, q) == wanted then [pending[n]] else [])
  }

  lemma {:induction false} RelevantSplits(pending: seq<PageEntry>, info: CopcInfo, q: PointQuery)
    requires LevelRange(q.lod).Ok?
    ensures |Relevant(pending, info, q, true)| + |Relevant(pending, info, q, false)| == |pending|
  {
    if pending != [] {
      RelevantSplits(pending[..|pending| - 1], info, q);
    }
  }

  function Budget(st: LazyState): nat {
    if st.totalBytes <= MAX_HIERARCHY_TOTAL_BYTES then MAX_HIERARCHY_TOTAL_BYTES - st.totalBytes else 0
  }

  /** `ensure_hierarchy_for`: batches of matching pages until none is pending. */
  function Ensure(src: Source, st: LazyState, q: PointQuery): Outcome
    decreases Budget(st), |st.pending|
  {
    if st.pending == [] then Outcome(st, true)
    else if LevelRange(q.lod).Err? then Outcome(st.(pending := []), false)
    else
      var batch := Relevant(st.pending, src.info, q, true);
      var rest := Relevant(st.pending, src.info, q, false);
      if batch == [] then Outcome(st.(pending := rest), true)
      else
        RelevantSplits(st.pending, src.info, q);
        var loaded := LoadPages(src, st.(pending := rest), batch);
        if loaded.ok then Ensure(src, loaded.state, q) else loaded
  }

  /** `hierarchy_for`: the state after the call and its result. */
  function HierarchyFor(src: Source, st: LazyState, q: PointQuery): (LazyState, Result<seq<Entry>>) {
    if !QueryAccepted(q) then (st, Err(InvalidInput))
    else
      var ensured := Ensure(src, st, q);
      if ensured.ok then (ensured.state, Select(SortedValues(ensured.state.hierarchy), src.info, q))
      else (ensured.state, Err(InvalidData))
  }

  /** The loading part of `open`: the root page, into an empty reader. */
  function OpenLazy(src: Source, root: ByteRange): Outcome {
    LoadPage(src, FRESH, root)
  }

  /** One round of `Ensure`: the batch it loads and what it leaves pending. */
  lemma EnsureUnfolds(src: Source, st: LazyState, q: PointQuery)
    requires st.pending != [] && LevelRange(q.lod).Ok?
    ensures var batch := Relevant(st.pending, src.info, q, true);
      var start := st.(pending := Relevant(st.pending, src.info, q, false));
      var loaded := LoadPages(src, start, batch);
      && (batch == [] ==> Ensure(src, st, q) == Outcome(start, true))
      && (batch != [] && loaded.ok ==>
            && Ensure(src, st, q) == Ensure(src, loaded.state, q)
            && (Budget(loaded.state) < Budget(st)
                || (Budget(loaded.state) == Budget(st) && |loaded.state.pending| < |st.pending|)))
      && (batch != [] && !loaded.ok ==> Ensure(src, st, q) == loaded)
  {
    hide Relevant, LoadPages, LevelRange;
    RelevantSplits(st.pending, src.info, q);
  }

  // The reader object -------------------------------------------------------

  lemma {:induction false} AbsorbFails(src: Source, st: LazyState, entries: seq<Entry>, n: nat)
    requires n <= |entries| && !AbsorbEntries(src, st, entries[..n]).ok
    ensures AbsorbEntries(src, st, entries) == AbsorbEntries(src, st, entries[..n])
    decreases |entries|
  {
    if n < |entries| {
      assert entries[..|entries| - 1][..n] == entries[..n];
      AbsorbFails(src, st, entries[..|entries| - 1], n);
    } else {
      assert entries[..n] == entries;
    }
  }

  lemma {:induction false} LoadFails(src: Source, st: LazyState, pages: seq<PageEntry>, n: nat)
    requires n <= |pages| && !LoadPages(src, st, pages[..n]).ok
    ensures LoadPages(src, st, pages) == LoadPages(src, st, pages[..n])
    decreases |pages|
  {
    if n < |pages| {
      assert pages[..|pages| - 1][..n] == pages[..n];
      LoadFails(src, st, pages[..|pages| - 1], n);
    } else {
      assert pages[..n] == pages;
    }
  }

  class CopcRangeReader {
    const source: Source
    var hierarchy: EntryMap
    var pendingPages: seq<PageEntry>
    var visitedPages: set<ByteRange>
    var totalBytes: nat
    var loadedPointTotal: nat
    var pointRanges: RangeMap
    ghost var fetched: seq<ByteRange>

    ghost function State(): LazyState
      reads this
    {
      LazyState(hierarchy, pendingPages, visitedPages, totalBytes, loadedPointTotal, pointRanges, fetched)
    }

    /** The entries held are stored at valid keys, which selection relies on. */
    ghost predicate Valid()
      reads this
    {
      ValidKeys(hierarchy)
    }

    /** The reader before its root page is loaded. */
    constructor (source: Source)
      ensures Valid() && this.source == source && State() == FRESH
    {
      this.source := source;
      hierarchy, pendingPages, visitedPages := map[], [], {};
      totalBytes, loadedPointTotal, pointRanges, fetched := 0, 0, map[], [];
    }

    /** The loading part of `open`. */
    method Open(root: ByteRange) returns (ok: bool)
      requires Valid() && State() == FRESH
      modifies this
      ensures Valid() && Outcome(State(), ok) == OpenLazy(source, root)
    {
      hide LoadPage;
      ok := AddPage(root);
    }

    method AddEntry(entry: Entry) returns (ok: bool)
      requires Valid()
      modifies this
      ensures Valid() && Outcome(State(), ok) == AbsorbEntry(source, old(State()), entry)
    {
      if !EntryAccepted(source.env, entry) {
        return false;
      }
      if entry.key in hierarchy && !(hierarchy[entry.key].IsChildPage() && !entry.IsChildPage()) {
        return false;
      }
      if entry.HasPointData() {
        var inserted := InsertRange(pointRanges, entry);
        if inserted.Err? {
          return false;
        }
        pointRanges := inserted.value;
      }
      hierarchy := hierarchy[entry.key := entry];
      if entry.HasPointData() {
        if loadedPointTotal + entry.pointCount > UINT64_MAX {
          return false;
        }
        loadedPointTotal := loadedPointTotal + entry.pointCount;
      }
      if entry.IsChildPage() {
        pendingPages := pendingPages + [entry];
      }
      return true;
    }

    method AddEntries(entries: seq<Entry>) returns (ok: bool)
      requires Valid()
      modifies this
      ensures Valid() && Outcome(State(), ok) == AbsorbEntries(source, old(State()), entries)
    {
      hide AbsorbEntry;
      ghost var start := State();
      for i := 0 to |entries|
        invariant Valid() && Outcome(State(), true) == AbsorbEntries(source, start, entries[..i])
      {
        assert entries[..i + 1][..i] == entries[..i];
        var added := AddEntry(entries[i]);
        if !added {
          AbsorbFails(source, start, entries, i + 1);
          return false;
        }
      }
      assert entries[..|entries|] == entries;
      return true;
    }

    method AddPage(range: ByteRange) returns (ok: bool)
      requires Valid()
      modifies this
      ensures Valid() && Outcome(State(), ok) == LoadPage(source, old(State()), range)
    {
      hide AbsorbEntries, PageAt;
      if range in visitedPages {
        return true;
      }
      visitedPages := visitedPages + {range};
      if range.size == 0 || range.size % HIERARCHY_ENTRY_BYTES != 0 {
        return false;
      }
      if range.size > MAX_HIERARCHY_PAGE_BYTES {
        return false;
      }
      totalBytes := totalBytes + range.size;
      if totalBytes > MAX_HIERARCHY_TOTAL_BYTES {
        return false;
      }
      if !InFile(source.env.bytes, range.offset, range.size) {
        return false;
      }
      fetched := fetched + [range];
      var page := PageAt(source.env, range);
      if page.Err? {
        return false;
      }
      var added := AddEntries(page.value);
      if !added {
        return false;
      }
      if loadedPointTotal > source.numberOfPoints {
        return false;
      }
      if pendingPages == [] && loadedPointTotal != source.numberOfPoints {
        return false;
      }
      return true;
    }

    method AddPages(batch: seq<PageEntry>) returns (ok: bool)
      requires Valid()
      modifies this
      ensures Valid() && Outcome(State(), ok) == LoadPages(source, old(State()), batch)
    {
      hide LoadPage;
      ghost var start := State();
      for i := 0 to |batch|
        invariant Valid() && Outcome(State(), true) == LoadPages(source, start, batch[..i])
      {
        assert batch[..i + 1][..i] == batch[..i];
        var loaded := AddPage(RangeOf(batch[i]));
        if !loaded {
          LoadFails(source, start, batch, i + 1);
          return false;
        }
      }
      assert batch[..|batch|] == batch;
      return true;
    }

    /** Loads every pending hierarchy page whose subtree the query can reach. */
    method EnsureHierarchyFor(q: PointQuery) returns (ok: bool)
      requires Valid()
      modifies this
      ensures Valid() && Outcome(State(), ok) == Ensure(source, old(State()), q)
    {
      while true
        invariant Valid() && Ensure(source, State(), q) == Ensure(source, old(State()), q)
        decreases Budget(State()), |pendingPages|
      {
        if pendingPages == [] {
          return true;
        }
        if LevelRange(q.lod).Err? {
          pendingPages := [];
          return false;
        }
        hide Relevant, LoadPages, Ensure, Budget;
        EnsureUnfolds(source, State(), q);
        var batch := Relevant(pendingPages, source.info, q, true);
        pendingPages := Relevant(pendingPages, source.info, q, false);
        if batch == [] {
          return true;
        }
        var loaded := AddPages(batch);
        if !loaded {
          return false;
        }
      }
    }

    /** Point-data entries matching the query, loading the pages it can reach first. */
    method EntriesFor(q: PointQuery) returns (r: Result<seq<Entry>>)
      requires Valid()
      modifies this
      ensures Valid()
      ensures (State(), r.Ok?) == (HierarchyFor(source, old(State()), q).0, HierarchyFor(source, old(State()), q).1.Ok?)
      ensures r.Ok? ==> r == HierarchyFor(source, old(State()), q).1
    {
      if !QueryAccepted(q) {
        return Err(InvalidInput);
      }
      var ensured := EnsureHierarchyFor(q);
      if !ensured {
        return Err(InvalidData);
      }
      ValuesHaveValidKeys(hierarchy);
      r := SelectPointChunksFrom(SortedValues(hierarchy), source.info, q);
    }
  }

  // Keys stay valid ---------------------------------------------------------

  ghost predicate ValidKeys(h: EntryMap) {
    forall k :: k in h ==> h[k].key.Valid()
  }

  lemma ValuesHaveValidKeys(h: EntryMap)
    requires ValidKeys(h)
    ensures forall e :: e in SortedValues(h) ==> e.key.Valid()
  {
    forall e | e in SortedValues(h) ensures e.key.Valid() {
      var i :| 0 <= i < |SortedValues(h)| && SortedValues(h)[i] == e;
    }
  }
}
