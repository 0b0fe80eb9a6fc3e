/** Over any run of successful queries the lazy reader agrees with the eager one, and fetches no more than it must. */
module LazyEager {
  import opened Core
  import opened Voxel
  import opened Bounds
  import opened Codec
  import opened Hierarchy
  import opened ChunkRanges
  import opened Loader
  import opened LoaderFacts
  import opened Selection
  import opened RangeReader

  /** The complete eager load of the same file. */
  datatype Eager = Eager(root: ByteRange, pages: seq<ByteRange>, hierarchy: EntryMap)

  ghost predicate EagerLoaded(src: Source, eager: Eager) {
    Complete(src.env, eager.root, eager.pages, eager.hierarchy)
  }

  /** A page's entries lie under the key its parent page lists it at. */
  ghost predicate PagesNested(env: Env, pages: seq<ByteRange>) {
    forall r, c, e :: r in pages && OnPage(env, r, c) && c.Valid() && c.IsChildPage() && OnPage(env, RangeOf(c), e) ==>
      e.Valid() && Under(c.key, e.key)
  }

  ghost predicate QueryReaches(src: Source, q: PointQuery, key: VoxelKey) {
    key.Valid() && LevelRange(q.lod).Ok? && PageMayMatch(key, src.info, q)
  }

  /** Some query of the run reaches a page listed at range `r`. */
  ghost predicate Wanted(src: Source, eager: Eager, qs: seq<PointQuery>, r: ByteRange) {
    exists p, c, q :: p in eager.pages && OnPage(src.env, p, c) && c.Valid() && c.IsChildPage() && RangeOf(c) == r
      && q in qs && QueryReaches(src, q, c.key)
  }

  /**
   The reader between two page loads, with `held` the pages of the current batch still to load:
   it holds exactly the pages it fetched, knows every page those point at, and fetched only wanted pages.
   */
  ghost predicate LazyInvariant(src: Source, eager: Eager, st: LazyState, held: seq<PageEntry>, qs: seq<PointQuery>) {
    && eager.root in st.fetched
    && (forall r :: r in st.fetched ==> r in eager.pages)
    && (forall r :: r in st.fetched ==> r == eager.root || Wanted(src, eager, qs, r))
    && Holds(src.env, st.fetched, st.hierarchy)
    && (forall r :: r in st.visited <==> r in st.fetched)
    && Known(src.env, st, held)
  }

  /** Child pages of fetched pages are visited, pending or held, and nothing else is. */
  ghost predicate Known(env: Env, st: LazyState, held: seq<PageEntry>) {
    && (forall r, e :: r in st.fetched && OnPage(env, r, e) && e.Valid() && e.IsChildPage() ==>
          RangeOf(e) in st.visited || e in st.pending || e in held)
    && (forall c :: c in st.pending || c in held ==> Listed(env, st.fetched, c))
  }

  ghost predicate Listed(env: Env, fetched: seq<ByteRange>, e: Entry) {
    exists r :: r in fetched && OnPage(env, r, e)
  }

  // Absorbing a page --------------------------------------------------------

  lemma {:induction false} AbsorbInserts(src: Source, st: LazyState, entries: seq<Entry>)
    requires AbsorbEntries(src, st, entries).ok
    ensures InsertEntries(src.env, st.hierarchy, entries) == Ok(AbsorbEntries(src, st, entries).state.hierarchy)
    ensures forall e :: e in AbsorbEntries(src, st, entries).state.pending <==>
      e in st.pending || (e in entries && e.Valid() && e.IsChildPage())
  {
    if entries != [] {
      hide InsertRange, EntryAccepted, Insertable;
      var n := |entries| - 1;
      AbsorbInserts(src, st, entries[..n]);
      AcceptedValid(src.env, entries[n]);
    }
  }

  lemma AcceptedValid(env: Env, e: Entry)
    ensures EntryAccepted(env, e) ==> e.Valid()
  {
  }

  lemma ListedGrows(env: Env, fetched: seq<ByteRange>, r: ByteRange, e: Entry)
    requires Listed(env, fetched, e)
    ensures Listed(env, fetched + [r], e)
  {
    var q :| q in fetched && OnPage(env, q, e);
    assert q in fetched + [r];
  }

  lemma KnownAfterLoad(env: Env, st: LazyState, held: seq<PageEntry>, r: ByteRange, entries: seq<Entry>, st': LazyState)
    requires Known(env, st, held) && PageAt(env, r) == Ok(entries)
    requires st'.fetched == st.fetched + [r] && st'.visited == st.visited + {r}
    requires forall e :: e in st'.pending <==> e in st.pending || (e in entries && e.Valid() && e.IsChildPage())
    ensures Known(env, st', held)
  {
    hide Entry.Valid;
    forall c | c in st'.pending || c in held ensures Listed(env, st'.fetched, c) {
      if c in st.pending || c in held {
        ListedGrows(env, st.fetched, r, c);
      } else {
        assert r in st'.fetched && OnPage(env, r, c);
      }
    }
  }

  /** The load of page `r` read it and took in all its entries. */
  ghost predicate Absorbed(src: Source, st: LazyState, r: ByteRange) {
    && PageAt(src.env, r).Ok?
    && var read := st.(visited := st.visited + {r}, totalBytes := st.totalBytes + r.size, fetched := st.fetched + [r]);
       var absorbed := AbsorbEntries(src, read, PageAt(src.env, r).value);
       absorbed.ok && LoadPage(src, st, r).state == absorbed.state
  }

  /** The outcome of a load that actually read the page. */
  lemma LoadReads(src: Source, st: LazyState, r: ByteRange)
    requires r !in st.visited && LoadPage(src, st, r).ok
    ensures Absorbed(src, st, r)
  {
    hide AbsorbEntries, PageAt;
  }

  lemma AbsorbedKeepsInvariant(src: Source, eager: Eager, st: LazyState, held: seq<PageEntry>, qs: seq<PointQuery>, r: ByteRange)
    requires EagerLoaded(src, eager) && LazyInvariant(src, eager, st, held, qs)
    requires r in eager.pages && Wanted(src, eager, qs, r)
    requires Absorbed(src, st, r)
    ensures LazyInvariant(src, eager, LoadPage(src, st, r).state, held, qs)
    ensures LoadPage(src, st, r).state.visited == st.visited + {r}
    ensures LoadPage(src, st, r).state.fetched == st.fetched + [r]
  {
    hide Holds, Known, Wanted, AbsorbEntries, PageAt, Inserted, InsertEntries, Complete, OnPage, LoadPage;
    var entries := PageAt(src.env, r).value;
    var read := st.(visited := st.visited + {r}, totalBytes := st.totalBytes + r.size, fetched := st.fetched + [r]);
    AbsorbInserts(src, read, entries);
    InsertEntriesInserts(src.env, st.hierarchy, entries);
    var next := LoadPage(src, st, r).state;
    LoadHolds(src.env, st.fetched, st.hierarchy, r, entries, next.hierarchy);
    KnownAfterLoad(src.env, st, held, r, entries, next);
  }

  lemma PageKeepsInvariant(src: Source, eager: Eager, st: LazyState, held: seq<PageEntry>, qs: seq<PointQuery>, r: ByteRange)
    requires EagerLoaded(src, eager) && LazyInvariant(src, eager, st, held, qs)
    requires r in eager.pages && Wanted(src, eager, qs, r)
    requires LoadPage(src, st, r).ok
    ensures LazyInvariant(src, eager, LoadPage(src, st, r).state, held, qs)
    ensures r in LoadPage(src, st, r).state.visited
    ensures forall p :: p in st.fetched ==> p in LoadPage(src, st, r).state.fetched
  {
    hide EagerLoaded, LazyInvariant, Wanted, Absorbed, AbsorbEntries, PageAt;
    if r !in st.visited {
      LoadReads(src, st, r);
      AbsorbedKeepsInvariant(src, eager, st, held, qs, r);
    }
  }

  /** Holding one page fewer is fine once its range is visited. */
  lemma DropHeld(src: Source, eager: Eager, st: LazyState, held: seq<PageEntry>, qs: seq<PointQuery>)
    requires held != [] && LazyInvariant(src, eager, st, held, qs) && RangeOf(held[0]) in st.visited
    ensures LazyInvariant(src, eager, st, held[1..], qs)
  {
    hide Holds, Wanted, OnPage, Listed;
    assert forall e :: e in held ==> e == held[0] || e in held[1..];
    assert forall e :: e in held[1..] ==> e in held;
  }

  lemma ListedIsEager(src: Source, eager: Eager, st: LazyState, held: seq<PageEntry>, qs: seq<PointQuery>, c: PageEntry, q: PointQuery)
    requires EagerLoaded(src, eager) && LazyInvariant(src, eager, st, held, qs) && c in held
    requires q in qs && QueryReaches(src, q, c.key)
    ensures RangeOf(c) in eager.pages && Wanted(src, eager, qs, RangeOf(c))
  {
    hide Holds, Connected, QueryReaches;
    assert Listed(src.env, st.fetched, c);
    var r :| r in st.fetched && OnPage(src.env, r, c);
  }

  /** A batch of pages a query reaches, loaded in order. */
  lemma {:induction false} BatchKeepsInvariant(src: Source, eager: Eager, st: LazyState, batch: seq<PageEntry>,
    qs: seq<PointQuery>, q: PointQuery, n: nat)
    requires EagerLoaded(src, eager) && LazyInvariant(src, eager, st, batch, qs)
    requires q in qs && (forall c :: c in batch ==> QueryReaches(src, q, c.key))
    requires n <= |batch| && LoadPages(src, st, batch[..n]).ok
    ensures LazyInvariant(src, eager, LoadPages(src, st, batch[..n]).state, batch[n..], qs)
    ensures forall p :: p in st.fetched ==> p in LoadPages(src, st, batch[..n]).state.fetched
  {
    hide LazyInvariant, EagerLoaded, LoadPage, QueryReaches, Wanted;
    if n == 0 {
      assert batch[0..] == batch;
    } else {
      assert batch[..n][..n - 1] == batch[..n - 1];
      BatchKeepsInvariant(src, eager, st, batch, qs, q, n - 1);
      var before := LoadPages(src, st, batch[..n - 1]).state;
      var c := batch[n - 1];
      assert c == batch[n - 1..][0] && batch[n - 1..][1..] == batch[n..];
      ListedIsEager(src, eager, before, batch[n - 1..], qs, c, q);
      PageKeepsInvariant(src, eager, before, batch[n - 1..], qs, RangeOf(c));
      DropHeld(src, eager, LoadPage(src, before, RangeOf(c)).state, batch[n - 1..], qs);
    }
  }

  // One query ---------------------------------------------------------------

  /** No pending page can hold anything the query wants. */
  ghost predicate NothingPendingFor(src: Source, st: LazyState, q: PointQuery) {
    LevelRange(q.lod).Ok? ==> forall c :: c in st.pending ==> !QueryReaches(src, q, c.key)
  }

  lemma SplitPending(src: Source, eager: Eager, st: LazyState, qs: seq<PointQuery>, q: PointQuery)
    requires LazyInvariant(src, eager, st, [], qs) && LevelRange(q.lod).Ok?
    ensures LazyInvariant(src, eager, st.(pending := Relevant(st.pending, src.info, q, false)),
      Relevant(st.pending, src.info, q, true), qs)
    ensures forall c :: c in Relevant(st.pending, src.info, q, true) ==> QueryReaches(src, q, c.key)
    ensures forall c :: c in Relevant(st.pending, src.info, q, false) ==> !QueryReaches(src, q, c.key)
  {
    hide Holds, Wanted, OnPage, Relevant, PageMayMatch, Listed;
  }

  /** One round of a query that succeeds: its whole batch loads. */
  lemma RoundKeepsInvariant(src: Source, eager: Eager, st: LazyState, qs: seq<PointQuery>, q: PointQuery)
    requires EagerLoaded(src, eager) && LazyInvariant(src, eager, st, [], qs) && q in qs
    requires st.pending != [] && LevelRange(q.lod).Ok? && Ensure(src, st, q).ok
    ensures var batch := Relevant(st.pending, src.info, q, true);
      var loaded := LoadPages(src, st.(pending := Relevant(st.pending, src.info, q, false)), batch);
      && (batch != [] ==> loaded.ok)
      && LazyInvariant(src, eager, loaded.state, [], qs)
      && (forall p :: p in st.fetched ==> p in loaded.state.fetched)
  {
    hide LazyInvariant, EagerLoaded, LoadPages, Relevant, Ensure, QueryReaches;
    EnsureNeedsBatch(src, st, q);
    var batch := Relevant(st.pending, src.info, q, true);
    var start := st.(pending := Relevant(st.pending, src.info, q, false));
    SplitPending(src, eager, st, qs, q);
    assert batch[..|batch|] == batch && batch[|batch|..] == [];
    LoadNothing(src, start);
    BatchKeepsInvariant(src, eager, start, batch, qs, q, |batch|);
  }

  lemma LoadNothing(src: Source, st: LazyState)
    ensures LoadPages(src, st, []) == Outcome(st, true)
  {
  }

  lemma {:induction false} EnsureKeepsInvariant(src: Source, eager: Eager, st: LazyState, qs: seq<PointQuery>, q: PointQuery)
    requires EagerLoaded(src, eager) && LazyInvariant(src, eager, st, [], qs) && q in qs
    requires Ensure(src, st, q).ok
    ensures LazyInvariant(src, eager, Ensure(src, st, q).state, [], qs)
    ensures NothingPendingFor(src, Ensure(src, st, q).state, q)
    ensures forall p :: p in st.fetched ==> p in Ensure(src, st, q).state.fetched
    decreases Budget(st), |st.pending|
  {
    hide LazyInvariant, EagerLoaded, LoadPages, Relevant, Ensure, Budget, QueryReaches, LevelRange;
    if st.pending == [] || LevelRange(q.lod).Err? {
      EnsureStops(src, st, q);
    } else {
      EnsureUnfolds(src, st, q);
      RoundKeepsInvariant(src, eager, st, qs, q);
      SplitPending(src, eager, st, qs, q);
      var start := st.(pending := Relevant(st.pending, src.info, q, false));
      var batch := Relevant(st.pending, src.info, q, true);
      LoadNothing(src, start);
      if batch != [] {
        EnsureKeepsInvariant(src, eager, LoadPages(src, start, batch).state, qs, q);
      }
    }
  }

  lemma EnsureStops(src: Source, st: LazyState, q: PointQuery)
    requires st.pending == [] || LevelRange(q.lod).Err?
    ensures st.pending == [] ==> Ensure(src, st, q) == Outcome(st, true)
    ensures st.pending != [] ==> !Ensure(src, st, q).ok
  {
  }

  lemma EnsureNeedsBatch(src: Source, st: LazyState, q: PointQuery)
    requires st.pending != [] && LevelRange(q.lod).Ok? && Ensure(src, st, q).ok
    ensures var batch := Relevant(st.pending, src.info, q, true);
      batch != [] ==> LoadPages(src, st.(pending := Relevant(st.pending, src.info, q, false)), batch).ok
  {
    hide Ensure, LoadPages, Relevant, Budget;
    EnsureUnfolds(src, st, q);
  }

  /** A page that can reach a key can be reached through every page above it. */
  lemma ReachMonotone(src: Source, q: PointQuery, above: VoxelKey, key: VoxelKey)
    requires src.info.Valid() && above.Valid() && key.Valid() && Under(above, key) && QueryReaches(src, q, key)
    ensures QueryReaches(src, q, above)
  {
    hide VoxelBounds, Shr, LevelRange;
    VoxelNests(above, key, src.info.center, src.info.halfsize);
  }

  /** The entry of an earlier page that a page of the tree was reached from. */
  lemma Referrer(src: Source, eager: Eager, i: nat) returns (j: nat, c: PageEntry)
    requires EagerLoaded(src, eager) && 0 < i < |eager.pages|
    ensures j < i && OnPage(src.env, eager.pages[j], c) && RangeOf(c) == eager.pages[i]
  {
    hide Holds, OnPage, EntryAccepted;
    assert PointedAt(src.env, eager.pages, i, eager.pages[i]);
    var j', c' :| 0 <= j' < i && j' < |eager.pages| && OnPage(src.env, eager.pages[j'], c') && c'.Valid() && c'.IsChildPage()
      && RangeOf(c') == eager.pages[i];
    j, c := j', c';
  }

  /** A child page of a fetched page that the query reaches has been fetched. */
  lemma ReachedChildFetched(src: Source, eager: Eager, st: LazyState, qs: seq<PointQuery>, q: PointQuery, r: ByteRange, c: PageEntry)
    requires LazyInvariant(src, eager, st, [], qs) && NothingPendingFor(src, st, q)
    requires r in st.fetched && OnPage(src.env, r, c) && QueryReaches(src, q, c.key)
    ensures RangeOf(c) in st.fetched
  {
    hide Holds, Wanted, OnPage, PageMayMatch, Listed;
  }

  lemma RootFetched(src: Source, eager: Eager, st: LazyState, held: seq<PageEntry>, qs: seq<PointQuery>)
    requires EagerLoaded(src, eager) && LazyInvariant(src, eager, st, held, qs)
    ensures eager.pages != [] && eager.pages[0] in st.fetched
  {
    hide Holds, Wanted, OnPage, Known, PointedAt;
  }

  lemma Nested(env: Env, pages: seq<ByteRange>, r: ByteRange, c: PageEntry, e: Entry)
    requires PagesNested(env, pages) && r in pages && OnPage(env, r, c) && OnPage(env, RangeOf(c), e)
    ensures e.Valid() && Under(c.key, e.key)
  {
    hide OnPage, Under;
  }

  /** Every page on the way to something the query reaches has been fetched. */
  lemma {:induction false} WayIsFetched(src: Source, eager: Eager, st: LazyState, qs: seq<PointQuery>, q: PointQuery,
    i: nat, f: Entry, key: VoxelKey)
    requires EagerLoaded(src, eager) && PagesNested(src.env, eager.pages) && src.info.Valid()
    requires LazyInvariant(src, eager, st, [], qs) && NothingPendingFor(src, st, q)
    requires i < |eager.pages| && OnPage(src.env, eager.pages[i], f)
    requires f.Valid() && key.Valid() && Under(f.key, key) && QueryReaches(src, q, key)
    ensures eager.pages[i] in st.fetched
    decreases i
  {
    hide EagerLoaded, LazyInvariant, PagesNested, NothingPendingFor, OnPage, Under, VoxelKey.Valid, QueryReaches;
    RootFetched(src, eager, st, [], qs);
    if i > 0 {
      var j, c := Referrer(src, eager, i);
      Nested(src.env, eager.pages, eager.pages[j], c, f);
      UnderTransitive(c.key, f.key, key);
      ReachMonotone(src, q, c.key, key);
      WayIsFetched(src, eager, st, qs, q, j, c, key);
      ReachedChildFetched(src, eager, st, qs, q, eager.pages[j], c);
    }
  }

  lemma MatchIsReached(src: Source, q: PointQuery, e: Entry)
    requires Matches(e, src.info, q)
    ensures QueryReaches(src, q, e.key)
  {
  }

  /** After a query's pages are loaded, the lazy and the eager hierarchy hold the same matching entries. */
  lemma SameMatches(src: Source, eager: Eager, st: LazyState, qs: seq<PointQuery>, q: PointQuery, e: Entry)
    requires EagerLoaded(src, eager) && PagesNested(src.env, eager.pages) && src.info.Valid()
    requires LazyInvariant(src, eager, st, [], qs) && NothingPendingFor(src, st, q)
    requires Matches(e, src.info, q)
    ensures (e.key in st.hierarchy && st.hierarchy[e.key] == e) <==> (e.key in eager.hierarchy && eager.hierarchy[e.key] == e)
  {
    hide Wanted, OnPage, PageMayMatch, Under, EntryAccepted, BoxReaches, LevelInRange, PagesNested, NothingPendingFor, Known;
    assert Holds(src.env, eager.pages, eager.hierarchy) && Holds(src.env, st.fetched, st.hierarchy);
    if e.key in st.hierarchy && st.hierarchy[e.key] == e {
      var r :| r in st.fetched && OnPage(src.env, r, e);
      assert Stored(eager.hierarchy, e);
    }
    if e.key in eager.hierarchy && eager.hierarchy[e.key] == e {
      var r :| r in eager.pages && OnPage(src.env, r, e);
      var i :| 0 <= i < |eager.pages| && eager.pages[i] == r;
      UnderReflexive(e.key);
      MatchIsReached(src, q, e);
      AcceptedValid(src.env, e);
      WayIsFetched(src, eager, st, qs, q, i, e, e.key);
      assert Stored(st.hierarchy, e);
    }
  }

  lemma AcceptedMap(env: Env, fetched: seq<ByteRange>, h: EntryMap)
    requires Holds(env, fetched, h)
    ensures Keyed(h) && forall k :: k in h ==> h[k].Valid()
  {
  }

  /** A query on a reader in a good state returns what eager selection returns. */
  lemma QueryAgrees(src: Source, eager: Eager, st: LazyState, qs: seq<PointQuery>, q: PointQuery)
    requires EagerLoaded(src, eager) && PagesNested(src.env, eager.pages) && src.info.Valid()
    requires LazyInvariant(src, eager, st, [], qs) && q in qs
    requires HierarchyFor(src, st, q).1.Ok?
    ensures HierarchyFor(src, st, q).1 == Select(SortedValues(eager.hierarchy), src.info, q)
    ensures LazyInvariant(src, eager, HierarchyFor(src, st, q).0, [], qs)
    ensures NothingPendingFor(src, HierarchyFor(src, st, q).0, q)
    ensures forall p :: p in st.fetched ==> p in HierarchyFor(src, st, q).0.fetched
  {
    hide Select, SortedValues, Ensure, Holds, Wanted, Known, NothingPendingFor, PagesNested, Matches, Complete;
    EnsureKeepsInvariant(src, eager, st, qs, q);
    var after := Ensure(src, st, q).state;
    CompleteHolds(src, eager);
    AcceptedMap(src.env, after.fetched, after.hierarchy);
    AcceptedMap(src.env, eager.pages, eager.hierarchy);
    forall e | Matches(e, src.info, q)
      ensures (e.key in after.hierarchy && after.hierarchy[e.key] == e) <==> (e.key in eager.hierarchy && eager.hierarchy[e.key] == e)
    {
      SameMatches(src, eager, after, qs, q, e);
    }
    SameMatchesSameSelection(after.hierarchy, eager.hierarchy, src.info, q);
  }

  lemma CompleteHolds(src: Source, eager: Eager)
    requires EagerLoaded(src, eager)
    ensures Holds(src.env, eager.pages, eager.hierarchy)
  {
  }
}
