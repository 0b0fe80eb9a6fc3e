/** The lazy reader's books: its interval map and point total always describe what it has loaded. */
module LazyAccounts {
  import opened Core
  import opened Voxel
  import opened Codec
  import opened Hierarchy
  import opened ChunkRanges
  import opened Loader
  import opened Selection
  import opened RangeReader
  import opened LazyEager
  import opened LazyRuns

  ghost predicate RangeOfChunk(m: RangeMap, h: EntryMap, s: uint64)
    requires s in m
  {
    var k := m[s].1;
    k in h && h[k].HasPointData() && h[k].offset == s && h[k].offset + h[k].byteSize == m[s].0
  }

  ghost predicate ChunkHasRange(m: RangeMap, e: Entry) {
    e.HasPointData() ==> e.offset in m && m[e.offset] == (e.offset + e.byteSize, e.key)
  }

  /** The interval map holds exactly the loaded point entries. */
  ghost predicate RangesMatch(m: RangeMap, h: EntryMap) {
    && (forall s :: s in m ==> RangeOfChunk(m, h, s))
    && (forall k :: k in h ==> ChunkHasRange(m, h[k]))
  }

  ghost predicate Balanced(st: LazyState) {
    && Keyed(st.hierarchy)
    && Sound(st.ranges) && RangesMatch(st.ranges, st.hierarchy)
    && st.loadedPoints == MapSum(st.hierarchy, PointsOf)
  }

  lemma InsertedMatches(m: RangeMap, h: EntryMap, e: Entry)
    requires RangesMatch(m, h) && Insertable(h, e) && e.HasPointData() && e.offset !in m
    requires e.byteSize > 0 && e.offset + e.byteSize <= UINT64_MAX
    ensures RangesMatch(m[e.offset := (e.offset + e.byteSize, e.key)], h[e.key := e])
  {
    var m', h' := m[e.offset := (e.offset + e.byteSize, e.key)], h[e.key := e];
    forall s | s in m' ensures RangeOfChunk(m', h', s) {
      if s != e.offset {
        assert RangeOfChunk(m, h, s);
      }
    }
    forall k | k in h' ensures ChunkHasRange(m', h'[k]) {
      if k != e.key {
        assert ChunkHasRange(m, h[k]);
      }
    }
  }

  lemma SkippedMatches(m: RangeMap, h: EntryMap, e: Entry)
    requires RangesMatch(m, h) && Insertable(h, e) && !e.HasPointData()
    ensures RangesMatch(m, h[e.key := e])
  {
    var h' := h[e.key := e];
    forall s | s in m ensures RangeOfChunk(m, h', s) {
      assert RangeOfChunk(m, h, s);
    }
    forall k | k in h' ensures ChunkHasRange(m, h'[k]) {
      if k != e.key {
        assert ChunkHasRange(m, h[k]);
      }
    }
  }

  lemma InsertedSum(h: EntryMap, e: Entry)
    requires Insertable(h, e)
    ensures MapSum(h[e.key := e], PointsOf) == MapSum(h, PointsOf) + PointsOf(e)
  {
    hide MapSum;
    if e.key in h {
      MapSumReplace(h, PointsOf, e.key, e);
    } else {
      MapSumInsert(h, PointsOf, e.key, e);
    }
  }

  lemma EntryBalances(src: Source, st: LazyState, e: Entry)
    requires Balanced(st) && AbsorbEntry(src, st, e).ok
    ensures Balanced(AbsorbEntry(src, st, e).state)
  {
    hide MapSum, RangesMatch, Sound, InsertRange;
    InsertedSum(st.hierarchy, e);
    if e.HasPointData() {
      NeighbourCheckExact(st.ranges, e);
      InsertedMatches(st.ranges, st.hierarchy, e);
    } else {
      SkippedMatches(st.ranges, st.hierarchy, e);
    }
  }

  lemma {:induction false} EntriesBalance(src: Source, st: LazyState, entries: seq<Entry>)
    requires Balanced(st) && AbsorbEntries(src, st, entries).ok
    ensures Balanced(AbsorbEntries(src, st, entries).state)
  {
    hide Balanced, AbsorbEntry;
    if entries != [] {
      var n := |entries| - 1;
      EntriesBalance(src, st, entries[..n]);
      EntryBalances(src, AbsorbEntries(src, st, entries[..n]).state, entries[n]);
    }
  }

  /** A page that loads keeps the books, and the total stays within the header's count. */
  lemma PageBalances(src: Source, st: LazyState, r: ByteRange)
    requires Balanced(st) && LoadPage(src, st, r).ok
    requires st.loadedPoints <= src.numberOfPoints
    ensures Balanced(LoadPage(src, st, r).state)
    ensures LoadPage(src, st, r).state.loadedPoints <= src.numberOfPoints
  {
    hide AbsorbEntries, PageAt, MapSum, RangesMatch, Sound;
    if r !in st.visited {
      var read := st.(visited := st.visited + {r}, totalBytes := st.totalBytes + r.size, fetched := st.fetched + [r]);
      EntriesBalance(src, read, PageAt(src.env, r).value);
    }
  }

  lemma {:induction false} PagesBalance(src: Source, st: LazyState, pages: seq<PageEntry>)
    requires Balanced(st) && st.loadedPoints <= src.numberOfPoints && LoadPages(src, st, pages).ok
    ensures Balanced(LoadPages(src, st, pages).state)
    ensures LoadPages(src, st, pages).state.loadedPoints <= src.numberOfPoints
  {
    hide Balanced, LoadPage;
    if pages != [] {
      var n := |pages| - 1;
      PagesBalance(src, st, pages[..n]);
      PageBalances(src, LoadPages(src, st, pages[..n]).state, RangeOf(pages[n]));
    }
  }

  lemma {:induction false} EnsureBalances(src: Source, st: LazyState, q: PointQuery)
    requires Balanced(st) && st.loadedPoints <= src.numberOfPoints && Ensure(src, st, q).ok
    ensures Balanced(Ensure(src, st, q).state)
    ensures Ensure(src, st, q).state.loadedPoints <= src.numberOfPoints
    decreases Budget(st), |st.pending|
  {
    hide Balanced, LoadPages, Relevant, Ensure, Budget, LevelRange;
    if st.pending == [] || LevelRange(q.lod).Err? {
      EnsureStops(src, st, q);
    } else {
      EnsureUnfolds(src, st, q);
      var batch := Relevant(st.pending, src.info, q, true);
      var start := st.(pending := Relevant(st.pending, src.info, q, false));
      assert Balanced(start) by {
        PendingIsNoAccount(st, start.pending);
      }
      if batch != [] {
        EnsureNeedsBatch(src, st, q);
        PagesBalance(src, start, batch);
        EnsureBalances(src, LoadPages(src, start, batch).state, q);
      }
    }
  }

  lemma PendingIsNoAccount(st: LazyState, pending: seq<PageEntry>)
    requires Balanced(st)
    ensures Balanced(st.(pending := pending))
  {
  }

  lemma OpenBalances(src: Source, root: ByteRange)
    requires OpenLazy(src, root).ok
    ensures Balanced(OpenLazy(src, root).state) && OpenLazy(src, root).state.loadedPoints <= src.numberOfPoints
  {
    hide LoadPage;
    assert Balanced(FRESH);
    PageBalances(src, FRESH, root);
  }

  /** Exact books mean disjoint chunks. */
  lemma BalancedDisjoint(st: LazyState)
    requires Balanced(st)
    ensures MapDisjoint(st.hierarchy)
  {
    var h, m := st.hierarchy, st.ranges;
    forall j, k | j in h && k in h && j != k && h[j].HasPointData() && h[k].HasPointData()
      ensures ChunksDisjoint(h[j], h[k])
    {
      assert ChunkHasRange(m, h[j]) && ChunkHasRange(m, h[k]);
    }
  }

  /**
   Over any run of successful queries the interval map holds exactly the loaded point chunks, the point total is their
   sum and at most the header's, and the chunks loaded are pairwise disjoint.
   */
  lemma {:induction false} BooksBalance(src: Source, root: ByteRange, qs: seq<PointQuery>)
    requires OpenLazy(src, root).ok && AllOk(src, OpenLazy(src, root).state, qs)
    ensures var st := After(src, OpenLazy(src, root).state, qs);
      Balanced(st) && st.loadedPoints <= src.numberOfPoints && MapDisjoint(st.hierarchy)
  {
    hide OpenLazy, Ensure, Balanced, AllOk, MapDisjoint, Select;
    var start := OpenLazy(src, root).state;
    if qs == [] {
      OpenBalances(src, root);
    } else {
      var n := |qs| - 1;
      RunShortens(src, start, qs);
      BooksBalance(src, root, qs[..n]);
      EnsureBalances(src, After(src, start, qs[..n]), qs[n]);
    }
    BalancedDisjoint(After(src, start, qs));
  }
}
