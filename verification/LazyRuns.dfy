/** Whole runs of successful queries on the lazy reader, from opening on. */
module LazyRuns {
  import opened Core
  import opened Voxel
  import opened Codec
  import opened Hierarchy
  import opened ChunkRanges
  import opened Loader
  import opened LoaderFacts
  import opened Selection
  import opened RangeReader
  import opened LazyEager
  import opened Requests

  /** The state after a run of queries. */
  ghost function After(src: Source, st: LazyState, qs: seq<PointQuery>): LazyState {
    if qs == [] then st
    else HierarchyFor(src, After(src, st, qs[..|qs| - 1]), qs[|qs| - 1]).0
  }

  /** What query `i` of the run returns. */
  ghost function Answer(src: Source, st: LazyState, qs: seq<PointQuery>, i: nat): Result<seq<Entry>>
    requires i < |qs|
  {
    HierarchyFor(src, After(src, st, qs[..i]), qs[i]).1
  }

  ghost predicate AllOk(src: Source, st: LazyState, qs: seq<PointQuery>) {
    forall i :: 0 <= i < |qs| ==> Answer(src, st, qs, i).Ok?
  }

  /** What a reader knows once the root page's entries are in. */
  lemma OpenKnowsRoot(src: Source, root: ByteRange)
    requires Absorbed(src, FRESH, root)
    ensures var st := OpenLazy(src, root).state;
      && st.fetched == [root] && st.visited == {root}
      && Holds(src.env, st.fetched, st.hierarchy) && Known(src.env, st, [])
  {
    hide Holds, Known, AbsorbEntries, PageAt, Inserted, InsertEntries, OnPage, LoadPage;
    var entries := PageAt(src.env, root).value;
    var read := FRESH.(visited := FRESH.visited + {root}, totalBytes := FRESH.totalBytes + root.size, fetched := FRESH.fetched + [root]);
    AbsorbInserts(src, read, entries);
    InsertEntriesInserts(src.env, map[], entries);
    NothingLoaded(src.env, root);
    var st := OpenLazy(src, root).state;
    LoadHolds(src.env, [], map[], root, entries, st.hierarchy);
    NothingKnown(src.env);
    KnownAfterLoad(src.env, FRESH, [], root, entries, st);
    assert [] + [root] == [root] && {} + {root} == {root};
  }

  lemma NothingKnown(env: Env)
    ensures Known(env, FRESH, [])
  {
  }

  lemma OpenReads(src: Source, root: ByteRange)
    requires OpenLazy(src, root).ok
    ensures Absorbed(src, FRESH, root)
  {
    hide Absorbed, LoadPage;
    LoadReads(src, FRESH, root);
  }

  /** Opening the lazy reader establishes the invariant. */
  lemma OpenEstablishes(src: Source, eager: Eager, qs: seq<PointQuery>)
    requires EagerLoaded(src, eager) && Absorbed(src, FRESH, eager.root)
    ensures LazyInvariant(src, eager, OpenLazy(src, eager.root).state, [], qs)
  {
    hide Holds, Known, OpenLazy, Wanted, PointedAt, OnPage, Absorbed;
    OpenKnowsRoot(src, eager.root);
    assert eager.pages[0] == eager.root;
  }

  lemma MoreQueries(src: Source, eager: Eager, st: LazyState, qs: seq<PointQuery>, more: seq<PointQuery>)
    requires LazyInvariant(src, eager, st, [], qs) && forall q :: q in qs ==> q in more
    ensures LazyInvariant(src, eager, st, [], more)
  {
    hide Holds, Known, OnPage, QueryReaches;
    forall r | r in st.fetched && r != eager.root ensures Wanted(src, eager, more, r) {
      assert Wanted(src, eager, qs, r);
    }
  }

  lemma RunShortens(src: Source, st: LazyState, qs: seq<PointQuery>)
    requires qs != [] && AllOk(src, st, qs)
    ensures var n := |qs| - 1;
      && AllOk(src, st, qs[..n])
      && HierarchyFor(src, After(src, st, qs[..n]), qs[n]).1.Ok?
      && forall i :: 0 <= i < n ==> Answer(src, st, qs[..n], i) == Answer(src, st, qs, i)
  {
    hide After, HierarchyFor;
    var n := |qs| - 1;
    assert Answer(src, st, qs, n).Ok?;
    forall i | 0 <= i < n ensures Answer(src, st, qs[..n], i) == Answer(src, st, qs, i) {
      assert qs[..n][..i] == qs[..i];
    }
  }

  /** What holds after a successful run. */
  ghost predicate RunGoes(src: Source, eager: Eager, st: LazyState, qs: seq<PointQuery>) {
    && LazyInvariant(src, eager, After(src, st, qs), [], qs)
    && (forall i :: 0 <= i < |qs| ==> Answer(src, st, qs, i) == Select(SortedValues(eager.hierarchy), src.info, qs[i]))
    && (forall r :: Wanted(src, eager, qs, r) ==> r in After(src, st, qs).fetched)
  }

  /** After query `q`, every page it wants has been fetched. */
  lemma WantedByLast(src: Source, eager: Eager, st: LazyState, qs: seq<PointQuery>, q: PointQuery, r: ByteRange)
    requires EagerLoaded(src, eager) && PagesNested(src.env, eager.pages) && src.info.Valid()
    requires LazyInvariant(src, eager, st, [], qs) && NothingPendingFor(src, st, q) && Wanted(src, eager, [q], r)
    ensures r in st.fetched
  {
    hide EagerLoaded, PagesNested, LazyInvariant, NothingPendingFor, OnPage, QueryReaches;
    var p, c :| p in eager.pages && OnPage(src.env, p, c) && c.Valid() && c.IsChildPage() && RangeOf(c) == r
      && QueryReaches(src, q, c.key);
    var i :| 0 <= i < |eager.pages| && eager.pages[i] == p;
    UnderReflexive(c.key);
    WayIsFetched(src, eager, st, qs, q, i, c, c.key);
    ReachedChildFetched(src, eager, st, qs, q, p, c);
  }

  lemma WantedSplits(src: Source, eager: Eager, qs: seq<PointQuery>, r: ByteRange)
    requires qs != [] && Wanted(src, eager, qs, r)
    ensures Wanted(src, eager, qs[..|qs| - 1], r) || Wanted(src, eager, [qs[|qs| - 1]], r)
  {
    hide OnPage, QueryReaches;
    var n := |qs| - 1;
    var p, c, q :| p in eager.pages && OnPage(src.env, p, c) && c.Valid() && c.IsChildPage() && RangeOf(c) == r
      && q in qs && QueryReaches(src, q, c.key);
    assert q in qs[..n] || q in [qs[n]];
  }

  lemma LastQueryGoes(src: Source, eager: Eager, st: LazyState, qs: seq<PointQuery>)
    requires EagerLoaded(src, eager) && PagesNested(src.env, eager.pages) && src.info.Valid()
    requires qs != [] && AllOk(src, st, qs) && RunGoes(src, eager, st, qs[..|qs| - 1])
    ensures RunGoes(src, eager, st, qs)
  {
    hide EagerLoaded, PagesNested, LazyInvariant, NothingPendingFor, Wanted, Select, SortedValues, HierarchyFor;
    var n := |qs| - 1;
    RunShortens(src, st, qs);
    var before := After(src, st, qs[..n]);
    MoreQueries(src, eager, before, qs[..n], qs);
    QueryAgrees(src, eager, before, qs, qs[n]);
    var after := After(src, st, qs);
    forall r | Wanted(src, eager, qs, r) ensures r in after.fetched {
      WantedSplits(src, eager, qs, r);
      if Wanted(src, eager, [qs[n]], r) {
        WantedByLast(src, eager, after, qs, qs[n], r);
      }
    }
    assert Answer(src, st, qs, n) == HierarchyFor(src, before, qs[n]).1;
  }

  lemma {:induction false} RunInduction(src: Source, eager: Eager, st: LazyState, qs: seq<PointQuery>)
    requires EagerLoaded(src, eager) && PagesNested(src.env, eager.pages) && src.info.Valid()
    requires LazyInvariant(src, eager, st, [], []) && AllOk(src, st, qs)
    ensures RunGoes(src, eager, st, qs)
  {
    hide EagerLoaded, PagesNested, LazyInvariant, AllOk, RunGoes, Answer;
    if qs == [] {
      NoQueriesGo(src, eager, st);
    } else {
      RunShortens(src, st, qs);
      RunInduction(src, eager, st, qs[..|qs| - 1]);
      LastQueryGoes(src, eager, st, qs);
    }
  }

  lemma NoQueriesGo(src: Source, eager: Eager, st: LazyState)
    requires LazyInvariant(src, eager, st, [], [])
    ensures RunGoes(src, eager, st, [])
  {
    hide LazyInvariant, OnPage, QueryReaches;
  }

  /** Some query of the run calls for a page listed at range `r`. */
  ghost predicate Called(src: Source, eager: Eager, qs: seq<PointQuery>, r: ByteRange) {
    exists p, c, q :: p in eager.pages && OnPage(src.env, p, c) && c.Valid() && c.IsChildPage() && RangeOf(c) == r
      && q in qs && Calls(q, c.key, src.info)
  }

  lemma AcceptedIfOk(src: Source, st: LazyState, qs: seq<PointQuery>, q: PointQuery)
    requires AllOk(src, st, qs) && q in qs
    ensures QueryAccepted(q)
  {
    hide QueryAccepted, Ensure, Select;
    var i :| 0 <= i < |qs| && qs[i] == q;
    assert Answer(src, st, qs, i).Ok?;
  }

  lemma ReachesAsCalled(src: Source, q: PointQuery, key: VoxelKey)
    requires src.info.Valid() && QueryAccepted(q)
    ensures QueryReaches(src, q, key) <==> Calls(q, key, src.info)
  {
    hide PageMayMatch, LevelRange, LodAccepted, QueryAccepted, Meets, LooksBelow, BoxAccepted;
    QueryAcceptedExactly(q);
    LevelsExactly(q.lod, key.level);
    if key.Valid() && LevelRange(q.lod).Ok? {
      PageMayMatchExactly(key, src.info, q);
    }
  }

  /** Over successful queries the wanted pages are those called for. */
  lemma WantedAsCalled(src: Source, eager: Eager, st: LazyState, qs: seq<PointQuery>, r: ByteRange)
    requires src.info.Valid() && AllOk(src, st, qs)
    ensures Wanted(src, eager, qs, r) <==> Called(src, eager, qs, r)
  {
    hide QueryReaches, Calls, OnPage, AllOk, QueryAccepted;
    if Wanted(src, eager, qs, r) {
      var p, c, q :| p in eager.pages && OnPage(src.env, p, c) && c.Valid() && c.IsChildPage() && RangeOf(c) == r
        && q in qs && QueryReaches(src, q, c.key);
      AcceptedIfOk(src, st, qs, q);
      ReachesAsCalled(src, q, c.key);
    }
    if Called(src, eager, qs, r) {
      var p, c, q :| p in eager.pages && OnPage(src.env, p, c) && c.Valid() && c.IsChildPage() && RangeOf(c) == r
        && q in qs && Calls(q, c.key, src.info);
      AcceptedIfOk(src, st, qs, q);
      ReachesAsCalled(src, q, c.key);
    }
  }

  /**
   The lazy reader refines the eager one. On a file the eager loader accepts, whose pages keep to the subtree of
   their key, every query of a run that succeeded returns, in the same order, what eager selection returns; and the
   pages fetched are exactly the root page and those some query calls for: pages of a level the query looks below whose
   voxel shares a point with its box.
   */
  lemma LazyRefinesEager(src: Source, root: ByteRange, qs: seq<PointQuery>)
    requires src.info.Valid() && LoadAll(src.env, root).Ok? && PagesNested(src.env, LoadAll(src.env, root).value.fetched)
    requires OpenLazy(src, root).ok && AllOk(src, OpenLazy(src, root).state, qs)
    ensures var loaded := LoadAll(src.env, root).value; var st := OpenLazy(src, root).state;
      && (forall i :: 0 <= i < |qs| ==> Answer(src, st, qs, i) == Select(SortedValues(loaded.hierarchy), src.info, qs[i]))
      && (forall r :: r in After(src, st, qs).fetched <==>
            r == root || Called(src, Eager(root, loaded.fetched, loaded.hierarchy), qs, r))
  {
    hide LoadAll, OpenLazy, PagesNested, AllOk, Wanted, Called, Complete, Holds, Known, Answer, After, Select, Absorbed;
    LoadAllComplete(src.env, root);
    var loaded := LoadAll(src.env, root).value;
    var eager := Eager(root, loaded.fetched, loaded.hierarchy);
    assert Absorbed(src, FRESH, root) by {
      OpenReads(src, root);
    }
    OpenEstablishes(src, eager, []);
    RunInduction(src, eager, OpenLazy(src, root).state, qs);
    forall r ensures Wanted(src, eager, qs, r) <==> Called(src, eager, qs, r) {
      WantedAsCalled(src, eager, OpenLazy(src, root).state, qs, r);
    }
  }
}
