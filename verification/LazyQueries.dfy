/** Exactly when a lazy query succeeds. */
module LazyQueries {
  import opened Core
  import opened Voxel
  import opened Codec
  import opened Hierarchy
  import opened ChunkRanges
  import opened Loader
  import opened LoaderFacts
  import Sorting
  import opened Selection
  import opened RangeReader
  import opened LazyEager
  import opened LazyRuns
  import opened LazyAccounts
  import opened LazyReady
  import opened LazyRounds

  // The frontiers of a query ------------------------------------------------

  /** The pages pending after a round: those out of reach, then the children of those in reach. */
  ghost function NextFrontier(env: Env, info: CopcInfo, q: PointQuery, pending: seq<PageEntry>): seq<PageEntry>
    requires LevelRange(q.lod).Ok?
  {
    Relevant(pending, info, q, false) + RoundChildren(env, Relevant(pending, info, q, true))
  }

  /** The pages pending after `n` rounds: a function of the file and the query. */
  ghost function Frontier(env: Env, info: CopcInfo, q: PointQuery, pending: seq<PageEntry>, n: nat): seq<PageEntry>
    requires LevelRange(q.lod).Ok?
    decreases n
  {
    if n == 0 then pending else Frontier(env, info, q, NextFrontier(env, info, q, pending), n - 1)
  }

  ghost predicate FrontierPasses(env: Env, info: CopcInfo, q: PointQuery, pending: seq<PageEntry>)
    requires LevelRange(q.lod).Ok?
  {
    RoundPasses(env, Relevant(pending, info, q, false), Relevant(pending, info, q, true))
  }

  /** Every successive frontier leaves a page unreached, or begins with a page with children, or has no points ahead. */
  ghost predicate QueryPasses(env: Env, info: CopcInfo, q: PointQuery, pending: seq<PageEntry>)
    requires LevelRange(q.lod).Ok?
  {
    forall n: nat :: FrontierPasses(env, info, q, Frontier(env, info, q, pending, n))
  }

  lemma NoneRelevant(pending: seq<PageEntry>, info: CopcInfo, q: PointQuery)
    requires LevelRange(q.lod).Ok? && Relevant(pending, info, q, true) == []
    ensures Relevant(Relevant(pending, info, q, false), info, q, true) == []
  {
    hide LevelRange, PageMayMatch;
  }

  /** A frontier with no page in reach stays so. */
  lemma {:induction false} QuietPasses(env: Env, info: CopcInfo, q: PointQuery, pending: seq<PageEntry>, n: nat)
    requires LevelRange(q.lod).Ok? && Relevant(pending, info, q, true) == []
    ensures FrontierPasses(env, info, q, Frontier(env, info, q, pending, n))
    decreases n
  {
    hide Relevant, LevelRange, RoundChildren, LeadsToPoints, HasChild;
    if n > 0 {
      NoneRelevant(pending, info, q);
      NoRoundChildren(env);
      assert NextFrontier(env, info, q, pending) == Relevant(pending, info, q, false);
      QuietPasses(env, info, q, NextFrontier(env, info, q, pending), n - 1);
    }
  }

  lemma QueryPassesUnfolds(env: Env, info: CopcInfo, q: PointQuery, pending: seq<PageEntry>)
    requires LevelRange(q.lod).Ok?
    ensures QueryPasses(env, info, q, pending) <==>
      FrontierPasses(env, info, q, pending) && QueryPasses(env, info, q, NextFrontier(env, info, q, pending))
  {
    hide FrontierPasses, NextFrontier, LevelRange;
    var next := NextFrontier(env, info, q, pending);
    if QueryPasses(env, info, q, pending) {
      assert FrontierPasses(env, info, q, Frontier(env, info, q, pending, 0));
      forall n: nat ensures FrontierPasses(env, info, q, Frontier(env, info, q, next, n)) {
        assert Frontier(env, info, q, pending, n + 1) == Frontier(env, info, q, next, n);
      }
    }
    if FrontierPasses(env, info, q, pending) && QueryPasses(env, info, q, next) {
      forall n: nat ensures FrontierPasses(env, info, q, Frontier(env, info, q, pending, n)) {
        if n > 0 {
          assert Frontier(env, info, q, pending, n) == Frontier(env, info, q, next, n - 1);
        }
      }
    }
  }

  lemma QuietQueryPasses(env: Env, info: CopcInfo, q: PointQuery, pending: seq<PageEntry>)
    requires LevelRange(q.lod).Ok? && Relevant(pending, info, q, true) == []
    ensures QueryPasses(env, info, q, pending)
  {
    hide Relevant, FrontierPasses, LevelRange, Frontier;
    forall n: nat ensures FrontierPasses(env, info, q, Frontier(env, info, q, pending, n)) {
      QuietPasses(env, info, q, pending, n);
    }
  }

  lemma NothingRelevant(info: CopcInfo, q: PointQuery)
    requires LevelRange(q.lod).Ok?
    ensures Relevant([], info, q, true) == [] && Relevant([], info, q, false) == []
  {
  }

  // A query for everything --------------------------------------------------

  const EVERYTHING := PointQuery(AllLevels, None)

  lemma RelevantLast(pending: seq<PageEntry>, info: CopcInfo, q: PointQuery, wanted: bool)
    requires pending != [] && LevelRange(q.lod).Ok? && PageMayMatch(pending[|pending| - 1].key, info, q) == wanted
    ensures Relevant(pending, info, q, wanted) == Relevant(pending[..|pending| - 1], info, q, wanted) + [pending[|pending| - 1]]
  {
    hide PageMayMatch, LevelRange;
  }

  lemma {:induction false} AllKept(pending: seq<PageEntry>, info: CopcInfo, q: PointQuery, wanted: bool)
    requires LevelRange(q.lod).Ok? && forall e :: e in pending ==> PageMayMatch(e.key, info, q) == wanted
    ensures Relevant(pending, info, q, wanted) == pending
  {
    hide PageMayMatch, Relevant, LevelRange;
    if pending == [] {
      NothingRelevant(info, q);
    } else {
      AllKept(pending[..|pending| - 1], info, q, wanted);
      RelevantLast(pending, info, q, wanted);
    }
  }

  lemma AllReached(pending: seq<PageEntry>, info: CopcInfo, q: PointQuery)
    requires LevelRange(q.lod).Ok? && forall e :: e in pending ==> PageMayMatch(e.key, info, q)
    ensures Relevant(pending, info, q, true) == pending && Relevant(pending, info, q, false) == []
  {
    hide PageMayMatch, LevelRange;
    AllKept(pending, info, q, true);
    assert forall e :: e !in Relevant(pending, info, q, false);
  }

  lemma EverythingReached(key: VoxelKey, info: CopcInfo)
    requires key.Valid() && key.level < INT32_MAX
    ensures PageMayMatch(key, info, EVERYTHING)
  {
  }

  // Where a query leaves the frontier ---------------------------------------

  ghost predicate Quiet(info: CopcInfo, q: PointQuery, pending: seq<PageEntry>)
    requires LevelRange(q.lod).Ok?
  {
    Relevant(pending, info, q, true) == []
  }

  /** The pages a query leaves pending: the out-of-reach rest of its first frontier with no page in reach. */
  ghost function SettledFrontier(env: Env, info: CopcInfo, q: PointQuery, pending: seq<PageEntry>): seq<PageEntry>
    requires LevelRange(q.lod).Ok?
  {
    if n: nat :| Quiet(info, q, Frontier(env, info, q, pending, n)) then
      Relevant(Frontier(env, info, q, pending, n), info, q, false)
    else pending
  }

  /** The pages a run of queries leaves pending: a function of the file and the queries. */
  ghost function FrontierAfter(env: Env, info: CopcInfo, qs: seq<PointQuery>, pending: seq<PageEntry>): seq<PageEntry> {
    if qs == [] then pending
    else
      var n := |qs| - 1;
      var before := FrontierAfter(env, info, qs[..n], pending);
      if LevelRange(qs[n].lod).Ok? then SettledFrontier(env, info, qs[n], before) else before
  }

  lemma {:induction false} FrontierLater(env: Env, info: CopcInfo, q: PointQuery, pending: seq<PageEntry>, n: nat)
    requires LevelRange(q.lod).Ok?
    ensures Frontier(env, info, q, pending, n + 1) == NextFrontier(env, info, q, Frontier(env, info, q, pending, n))
    decreases n
  {
    hide NextFrontier, LevelRange;
    if n > 0 {
      FrontierLater(env, info, q, NextFrontier(env, info, q, pending), n - 1);
    } else {
      assert Frontier(env, info, q, NextFrontier(env, info, q, pending), 0) == NextFrontier(env, info, q, pending);
    }
  }

  lemma RestStays(pending: seq<PageEntry>, info: CopcInfo, q: PointQuery)
    requires LevelRange(q.lod).Ok?
    ensures Relevant(Relevant(pending, info, q, false), info, q, false) == Relevant(pending, info, q, false)
  {
    hide PageMayMatch, LevelRange;
    AllKept(Relevant(pending, info, q, false), info, q, false);
  }

  lemma {:induction false} QuietStays(env: Env, info: CopcInfo, q: PointQuery, pending: seq<PageEntry>, n: nat, k: nat)
    requires LevelRange(q.lod).Ok? && Quiet(info, q, Frontier(env, info, q, pending, n))
    ensures Quiet(info, q, Frontier(env, info, q, pending, n + k))
    ensures Relevant(Frontier(env, info, q, pending, n + k), info, q, false) == Relevant(Frontier(env, info, q, pending, n), info, q, false)
    decreases k
  {
    hide Relevant, LevelRange, Frontier, RoundChildren;
    if k > 0 {
      QuietStays(env, info, q, pending, n, k - 1);
      var last := Frontier(env, info, q, pending, n + k - 1);
      FrontierLater(env, info, q, pending, n + k - 1);
      NoneRelevant(last, info, q);
      NoRoundChildren(env);
      assert Frontier(env, info, q, pending, n + k) == NextFrontier(env, info, q, last) == Relevant(last, info, q, false);
      RestStays(last, info, q);
    }
  }

  /** Any frontier with no page in reach tells where the query leaves off. */
  lemma SettledIs(env: Env, info: CopcInfo, q: PointQuery, pending: seq<PageEntry>, n: nat)
    requires LevelRange(q.lod).Ok? && Quiet(info, q, Frontier(env, info, q, pending, n))
    ensures SettledFrontier(env, info, q, pending) == Relevant(Frontier(env, info, q, pending, n), info, q, false)
  {
    hide Quiet, Relevant, LevelRange, Frontier;
    var m: nat :| Quiet(info, q, Frontier(env, info, q, pending, m))
      && SettledFrontier(env, info, q, pending) == Relevant(Frontier(env, info, q, pending, m), info, q, false);
    if m <= n {
      QuietStays(env, info, q, pending, m, n - m);
    } else {
      QuietStays(env, info, q, pending, n, m - n);
    }
  }

  ghost predicate SettlesAt(env: Env, info: CopcInfo, q: PointQuery, pending: seq<PageEntry>, n: nat, left: seq<PageEntry>)
    requires LevelRange(q.lod).Ok?
  {
    Quiet(info, q, Frontier(env, info, q, pending, n)) && left == Relevant(Frontier(env, info, q, pending, n), info, q, false)
  }

  lemma SettlesLater(env: Env, info: CopcInfo, q: PointQuery, pending: seq<PageEntry>, n: nat, left: seq<PageEntry>)
    requires LevelRange(q.lod).Ok? && SettlesAt(env, info, q, NextFrontier(env, info, q, pending), n, left)
    ensures SettlesAt(env, info, q, pending, n + 1, left)
  {
    hide NextFrontier, Relevant, LevelRange;
  }

  lemma SettlesNow(env: Env, info: CopcInfo, q: PointQuery, pending: seq<PageEntry>)
    requires LevelRange(q.lod).Ok? && Relevant(pending, info, q, true) == []
    ensures SettlesAt(env, info, q, pending, 0, Relevant(pending, info, q, false))
  {
    hide NextFrontier, Relevant, LevelRange;
  }

  // When a query succeeds ---------------------------------------------------

  lemma {:induction false} EnsureExactly(src: Source, eager: Eager, st: LazyState, qs: seq<PointQuery>, q: PointQuery)
    requires Openable(src, eager) && Tidy(src.env, eager.root, eager.pages) && Ready(src, eager, st, [], qs) && q in qs
    requires LevelRange(q.lod).Ok?
    ensures Ensure(src, st, q).ok <==> QueryPasses(src.env, src.info, q, st.pending)
    ensures Ensure(src, st, q).ok ==> Ready(src, eager, Ensure(src, st, q).state, [], qs)
    ensures Ensure(src, st, q).ok ==> exists n: nat :: SettlesAt(src.env, src.info, q, st.pending, n, Ensure(src, st, q).state.pending)
    decreases Budget(st), |st.pending|
  {
    hide Openable, Tidy, Ready, LoadPages, Relevant, Ensure, Budget, LevelRange, PageMayMatch, RoundPasses, QueryPasses, RoundChildren, QueryReaches, SettlesAt;
    if st.pending == [] {
      EnsureStops(src, st, q);
      NothingRelevant(src.info, q);
      QuietQueryPasses(src.env, src.info, q, []);
      SettlesNow(src.env, src.info, q, []);
    } else {
      EnsureUnfolds(src, st, q);
      QueryPassesUnfolds(src.env, src.info, q, st.pending);
      SplitReady(src, eager, st, qs, q);
      var batch := Relevant(st.pending, src.info, q, true);
      var start := st.(pending := Relevant(st.pending, src.info, q, false));
      if batch == [] {
        QuietQueryPasses(src.env, src.info, q, st.pending);
        SettlesNow(src.env, src.info, q, st.pending);
      } else {
        ReadyKnows(src, eager, st, qs);
        SplitPending(src, eager, st, qs, q);
        RoundLoadsExactly(src, eager, start, batch, qs, q);
        var loaded := LoadPages(src, start, batch);
        if loaded.ok {
          assert loaded.state.pending == NextFrontier(src.env, src.info, q, st.pending);
          EnsureExactly(src, eager, loaded.state, qs, q);
          if QueryPasses(src.env, src.info, q, loaded.state.pending) {
            var left := Ensure(src, loaded.state, q).state.pending;
            var n: nat :| SettlesAt(src.env, src.info, q, loaded.state.pending, n, left);
            SettlesLater(src.env, src.info, q, st.pending, n, left);
          }
        }
      }
    }
  }

  lemma ReadyKnows(src: Source, eager: Eager, st: LazyState, qs: seq<PointQuery>)
    requires Ready(src, eager, st, [], qs)
    ensures LazyInvariant(src, eager, st, [], qs)
    ensures Holds(src.env, st.fetched, st.hierarchy)
  {
    hide Balanced, Rooted, Unfetched, Wanted, Known;
  }

  ghost predicate LevelAccepted(q: PointQuery) {
    QueryAccepted(q) && LevelRange(q.lod).Ok?
  }

  lemma EverythingAccepted()
    ensures LevelAccepted(EVERYTHING)
  {
  }

  /** On a ready reader a query succeeds exactly when it is well-formed and its frontiers pass. */
  lemma ReadyQueryExactly(src: Source, eager: Eager, st: LazyState, qs: seq<PointQuery>, q: PointQuery)
    requires Openable(src, eager) && Tidy(src.env, eager.root, eager.pages) && Ready(src, eager, st, [], qs) && q in qs
    ensures HierarchyFor(src, st, q).1.Ok? <==> LevelAccepted(q) && QueryPasses(src.env, src.info, q, st.pending)
    ensures HierarchyFor(src, st, q).1.Ok? ==>
      Ready(src, eager, HierarchyFor(src, st, q).0, [], qs)
      && HierarchyFor(src, st, q).0.pending == SettledFrontier(src.env, src.info, q, st.pending)
  {
    hide Openable, Tidy, Ready, Ensure, LevelRange, QueryPasses, Selectable, Selected, SortedValues, Sorting.Sort, SettledFrontier;
    if LevelAccepted(q) {
      EnsureExactly(src, eager, st, qs, q);
      if Ensure(src, st, q).ok {
        var after := Ensure(src, st, q).state;
        var n: nat :| SettlesAt(src.env, src.info, q, st.pending, n, after.pending);
        SettledIs(src.env, src.info, q, st.pending, n);
        ReadyKnows(src, eager, after, qs);
        AcceptedMap(src.env, after.fetched, after.hierarchy);
        ValidSelectable(after.hierarchy, q);
      }
    }
  }

  /** A reader stays ready over any run of successful queries. */
  lemma {:induction false} RunStaysReady(src: Source, eager: Eager, qs: seq<PointQuery>, more: seq<PointQuery>)
    requires Openable(src, eager) && Tidy(src.env, eager.root, eager.pages)
    requires AllOk(src, OpenLazy(src, eager.root).state, qs) && forall q :: q in qs ==> q in more
    ensures Ready(src, eager, After(src, OpenLazy(src, eager.root).state, qs), [], more)
    ensures After(src, OpenLazy(src, eager.root).state, qs).pending
         == FrontierAfter(src.env, src.info, qs, PageChildren(src.env, eager.root))
  {
    hide Openable, Tidy, Ready, OpenLazy, AllOk, Answer, HierarchyFor, QueryPasses, SettledFrontier, PageChildren;
    OpenIsReady(src, eager, more);
    if qs != [] {
      var n := |qs| - 1;
      var st := OpenLazy(src, eager.root).state;
      RunShortens(src, st, qs);
      assert qs[n] in more && forall q :: q in qs[..n] ==> q in qs;
      RunStaysReady(src, eager, qs[..n], more);
      ReadyQueryExactly(src, eager, After(src, st, qs[..n]), more, qs[n]);
    }
  }

  /** A file the eager reader opens, whose pages form a tree, seen by a lazy reader. */
  ghost predicate OpensAsTree(input: CopcInput, src: Source) {
    && OpenHierarchy(input).Ok? && src.numberOfPoints == input.numberOfPoints
    && NewDataRanges(input).Ok? && src.env == Env(input.bytes, NewDataRanges(input).value)
    && Tidy(src.env, Root(input), OpenHierarchy(input).value.fetched)
  }

  ghost function EagerOf(input: CopcInput): Eager
    requires OpenHierarchy(input).Ok?
  {
    Eager(Root(input), OpenHierarchy(input).value.fetched, OpenHierarchy(input).value.hierarchy)
  }

  lemma TreeIsOpenable(input: CopcInput, src: Source)
    requires OpensAsTree(input, src)
    ensures OpenHierarchy(input).Ok?
    ensures Openable(src, EagerOf(input)) && Tidy(src.env, EagerOf(input).root, EagerOf(input).pages)
  {
    hide Openable, Tidy, LoadAll, WholeAccepted;
    OpenedIsOpenable(input, src);
  }

  /**
   A file the eager reader opens, whose pages form a tree, opens lazily; and after any run of successful queries a query
   succeeds exactly when it is well-formed and every one of its frontiers passes. The frontiers start where the earlier
   queries left off, which the file and those queries determine.
   */
  lemma LazyQueryOkExactly(input: CopcInput, src: Source, qs: seq<PointQuery>, q: PointQuery)
    requires OpensAsTree(input, src) && AllOk(src, OpenLazy(src, Root(input)).state, qs)
    ensures OpenLazy(src, Root(input)).ok
    ensures var st := After(src, OpenLazy(src, Root(input)).state, qs);
      var pending := FrontierAfter(src.env, src.info, qs, PageChildren(src.env, Root(input)));
      HierarchyFor(src, st, q).1.Ok? <==> LevelAccepted(q) && QueryPasses(src.env, src.info, q, pending)
  {
    hide Openable, Tidy, Ready, OpenLazy, AllOk, HierarchyFor, LevelAccepted, QueryPasses, OpenHierarchy, PageChildren, After, FrontierAfter,
      OpensAsTree;
    TreeIsOpenable(input, src);
    OpenIsReady(src, EagerOf(input), []);
    RunStaysReady(src, EagerOf(input), qs, qs + [q]);
    ReadyQueryExactly(src, EagerOf(input), After(src, OpenLazy(src, Root(input)).state, qs), qs + [q], q);
  }
}
