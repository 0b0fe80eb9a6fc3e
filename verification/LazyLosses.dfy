/** What a failed query costs later ones, exactly. */
module LazyLosses {
  import opened Core
  import opened Voxel
  import opened Codec
  import opened Hierarchy
  import opened ChunkRanges
  import opened Loader
  import opened LoaderFacts
  import Sorting
  import opened Selection
  import opened RangeReader
  import opened LazyEager
  import opened LazyRuns
  import opened LazyAccounts
  import opened LazyReady
  import opened LazyRounds
  import opened LazyQueries

  // A reader that stopped ---------------------------------------------------

  /** A reader that stopped between two page loads, with pages it knows of still to load. */
  ghost predicate Halted(src: Source, eager: Eager, st: LazyState, held: seq<PageEntry>, qs: seq<PointQuery>) {
    && LazyInvariant(src, eager, st, held, qs) && Rooted(src.env, eager.root, st.fetched)
    && (forall c :: c in st.pending || c in held ==> RangeOf(c) !in st.fetched)
  }

  lemma ReadyHalts(src: Source, eager: Eager, st: LazyState, held: seq<PageEntry>, qs: seq<PointQuery>)
    requires Ready(src, eager, st, held, qs)
    ensures Halted(src, eager, st, held, qs)
  {
    hide Holds, Known, Wanted, Balanced, Rooted;
  }

  /** The entry is on one of the pages or on a page below one of them. */
  ghost predicate Below(env: Env, pages: seq<PageEntry>, e: Entry) {
    exists c, t, n: nat :: c in pages && Reaches(env, RangeOf(c), t, n) && OnPage(env, t, e)
  }

  lemma BelowBy(env: Env, pages: seq<PageEntry>, c: PageEntry, t: ByteRange, n: nat, e: Entry)
    requires c in pages && Reaches(env, RangeOf(c), t, n) && OnPage(env, t, e)
    ensures Below(env, pages, e)
  {
  }

  lemma HaltedParts(src: Source, eager: Eager, st: LazyState, held: seq<PageEntry>, qs: seq<PointQuery>)
    requires Halted(src, eager, st, held, qs)
    ensures LazyInvariant(src, eager, st, held, qs) && Rooted(src.env, eager.root, st.fetched) && Holds(src.env, st.fetched, st.hierarchy)
    ensures forall r :: r in st.fetched ==> r in eager.pages
    ensures forall c :: c in st.pending || c in held ==> Listed(src.env, st.fetched, c) && RangeOf(c) !in st.fetched
  {
    hide Holds, Wanted, Listed, Rooted, OnPage;
  }

  lemma ListedInEager(src: Source, eager: Eager, fetched: seq<ByteRange>, c: PageEntry)
    requires EagerLoaded(src, eager) && Listed(src.env, fetched, c) && forall r :: r in fetched ==> r in eager.pages
    ensures RangeOf(c) in eager.pages
  {
    hide Holds, Connected, OnPage;
    var r :| r in fetched && OnPage(src.env, r, c);
  }

  ghost predicate Has(h: EntryMap, e: Entry) {
    e.key in h && h[e.key] == e
  }

  /** A chunk of the file the reader lacks is below a page still to load. */
  lemma LackingIsAhead(src: Source, eager: Eager, st: LazyState, held: seq<PageEntry>, qs: seq<PointQuery>, e: Entry)
    requires EagerLoaded(src, eager) && Halted(src, eager, st, held, qs) && e.HasPointData()
    ensures Has(st.hierarchy, e) ==> Has(eager.hierarchy, e)
    ensures Has(eager.hierarchy, e) && !Has(st.hierarchy, e) ==> Below(src.env, st.pending + held, e)
  {
    hide Halted, OnPage, Reaches, Connected, EntryAccepted, LazyInvariant, Rooted, Listed, Below;
    HaltedParts(src, eager, st, held, qs);
    if Has(st.hierarchy, e) {
      var r :| r in st.fetched && OnPage(src.env, r, e);
      assert Stored(eager.hierarchy, e);
    } else if Has(eager.hierarchy, e) {
      var r :| r in eager.pages && OnPage(src.env, r, e);
      if !Has(st.hierarchy, e) {
        assert r !in st.fetched;
        var i :| 0 <= i < |eager.pages| && eager.pages[i] == r;
        var c, n := UnfetchedIsAhead(src, eager, st, held, qs, i);
        BelowBy(src.env, st.pending + held, c, r, n, e);
      }
    }
  }

  /** A chunk below a page still to load is in the file and not in the reader. */
  lemma AheadIsLacking(src: Source, eager: Eager, st: LazyState, held: seq<PageEntry>, qs: seq<PointQuery>, e: Entry)
    requires EagerLoaded(src, eager) && Tidy(src.env, eager.root, eager.pages) && Halted(src, eager, st, held, qs)
    requires Below(src.env, st.pending + held, e) && e.HasPointData()
    ensures Has(eager.hierarchy, e) && !Has(st.hierarchy, e)
  {
    hide Halted, Tidy, OnPage, Reaches, Connected, EntryAccepted, LazyInvariant, Rooted, Listed;
    HaltedParts(src, eager, st, held, qs);
    var c, t, n: nat :| c in st.pending + held && Reaches(src.env, RangeOf(c), t, n) && OnPage(src.env, t, e);
    ListedInEager(src, eager, st.fetched, c);
    BelowUnfetched(src, eager, st.fetched, RangeOf(c), t, n);
    assert Stored(eager.hierarchy, e);
    if Has(st.hierarchy, e) {
      var p :| p in st.fetched && OnPage(src.env, p, e);
      TidyClash(src.env, eager.root, eager.pages, p, t, e, e);
    }
  }

  /** A halted reader lacks exactly the chunks below the pages it has still to load. */
  lemma HaltedLacks(src: Source, eager: Eager, st: LazyState, held: seq<PageEntry>, qs: seq<PointQuery>, e: Entry)
    requires EagerLoaded(src, eager) && Tidy(src.env, eager.root, eager.pages) && Halted(src, eager, st, held, qs) && e.HasPointData()
    ensures Has(st.hierarchy, e) <==> Has(eager.hierarchy, e) && !Below(src.env, st.pending + held, e)
  {
    hide EagerLoaded, Tidy, Halted, Below, Has;
    LackingIsAhead(src, eager, st, held, qs, e);
    if Below(src.env, st.pending + held, e) {
      AheadIsLacking(src, eager, st, held, qs, e);
    }
  }

  // What it answers ---------------------------------------------------------

  /** No page below the lost ones holds a chunk the query matches. */
  ghost predicate NothingLost(src: Source, lost: seq<PageEntry>, q: PointQuery) {
    forall e :: Below(src.env, lost, e) ==> !Matches(e, src.info, q)
  }

  /** The answer is the eager one without the chunks below the lost pages. */
  ghost predicate AnswersWithout(src: Source, answer: Result<seq<Entry>>, whole: Result<seq<Entry>>, lost: seq<PageEntry>) {
    && (answer.Ok? <==> whole.Ok?)
    && (whole.Ok? ==> forall e :: e in answer.value <==> e in whole.value && !Below(src.env, lost, e))
  }

  lemma SelectionOf(h: EntryMap, info: CopcInfo, q: PointQuery)
    requires Keyed(h) && forall k :: k in h ==> h[k].Valid()
    ensures Select(SortedValues(h), info, q).Ok? <==> LevelAccepted(q)
    ensures LevelAccepted(q) ==> forall e :: e in Select(SortedValues(h), info, q).value <==> Has(h, e) && Matches(e, info, q)
  {
    hide SortedValues, Selected, Sorting.Sort, Selectable, Matches;
    ValidSelectable(h, q);
    if LevelAccepted(q) {
      SelectMembers(SortedValues(h), info, q);
      forall e ensures e in SortedValues(h) <==> Has(h, e) {
        ValuesMembers(h, e);
      }
    }
  }

  /** What any later query of a halted reader answers, and exactly when that is the eager answer. */
  lemma HaltedAnswers(src: Source, eager: Eager, st: LazyState, held: seq<PageEntry>, qs: seq<PointQuery>, q: PointQuery)
    requires EagerLoaded(src, eager) && Tidy(src.env, eager.root, eager.pages) && Halted(src, eager, st, held, qs)
    ensures var answer := Select(SortedValues(st.hierarchy), src.info, q); var whole := Select(SortedValues(eager.hierarchy), src.info, q);
      && AnswersWithout(src, answer, whole, st.pending + held)
      && (answer == whole <==> (QueryAccepted(q) ==> NothingLost(src, st.pending + held, q)))
  {
    hide Tidy, Halted, Below, Has, Matches, SortedValues, Select, Complete;
    HaltedParts(src, eager, st, held, qs);
    CompleteHolds(src, eager);
    AcceptedMap(src.env, st.fetched, st.hierarchy);
    AcceptedMap(src.env, eager.pages, eager.hierarchy);
    SelectionOf(st.hierarchy, src.info, q);
    SelectionOf(eager.hierarchy, src.info, q);
    forall e | Matches(e, src.info, q)
      ensures Has(st.hierarchy, e) <==> Has(eager.hierarchy, e) && !Below(src.env, st.pending + held, e)
      ensures Below(src.env, st.pending + held, e) ==> Has(eager.hierarchy, e)
    {
      MatchesPoints(e, src.info, q);
      HaltedLacks(src, eager, st, held, qs, e);
      if Below(src.env, st.pending + held, e) {
        AheadIsLacking(src, eager, st, held, qs, e);
      }
    }
    SameWhenNothingLost(src, eager, st, held, q);
    MalformedSame(st.hierarchy, eager.hierarchy, src.info, q);
  }

  lemma MatchesPoints(e: Entry, info: CopcInfo, q: PointQuery)
    requires Matches(e, info, q)
    ensures e.HasPointData() && LevelRange(q.lod).Ok?
  {
  }

  lemma MalformedSame(g: EntryMap, h: EntryMap, info: CopcInfo, q: PointQuery)
    ensures !LevelAccepted(q) ==> Select(SortedValues(g), info, q) == Select(SortedValues(h), info, q)
    ensures QueryAccepted(q) && LevelRange(q.lod).Err? ==> forall e :: !Matches(e, info, q)
  {
    hide SortedValues;
  }

  lemma SameWhenNothingLost(src: Source, eager: Eager, st: LazyState, held: seq<PageEntry>, q: PointQuery)
    requires Keyed(st.hierarchy) && Keyed(eager.hierarchy)
    requires (forall k :: k in st.hierarchy ==> st.hierarchy[k].Valid()) && forall k :: k in eager.hierarchy ==> eager.hierarchy[k].Valid()
    requires forall e :: Matches(e, src.info, q) ==>
      (Has(st.hierarchy, e) <==> Has(eager.hierarchy, e) && !Below(src.env, st.pending + held, e))
    ensures NothingLost(src, st.pending + held, q) ==>
      Select(SortedValues(st.hierarchy), src.info, q) == Select(SortedValues(eager.hierarchy), src.info, q)
  {
    hide Below, Matches, SortedValues, Select;
    if NothingLost(src, st.pending + held, q) {
      SameMatchesSameSelection(st.hierarchy, eager.hierarchy, src.info, q);
    }
  }

  // The two ways a query fails ----------------------------------------------

  /** With nothing pending a reader answers from what it holds, and stays as it is. */
  lemma NothingPendingAnswers(src: Source, st: LazyState, q: PointQuery)
    requires st.pending == []
    ensures HierarchyFor(src, st, q) == (st, Select(SortedValues(st.hierarchy), src.info, q))
  {
    hide SortedValues;
  }

  /** A bad level range throws the pending pages away. */
  lemma BadLevelDrops(src: Source, st: LazyState, bad: PointQuery)
    requires QueryAccepted(bad) && LevelRange(bad.lod).Err?
    ensures HierarchyFor(src, st, bad).1.Err? && HierarchyFor(src, st, bad).0 == st.(pending := [])
  {
  }

  lemma DroppedHalts(src: Source, eager: Eager, st: LazyState, qs: seq<PointQuery>)
    requires Halted(src, eager, st, [], qs)
    ensures Halted(src, eager, st.(pending := []), st.pending, qs)
  {
    hide Holds, Wanted, Listed, Rooted, OnPage;
  }

  /** A refused round loads its first page and forgets the others. */
  lemma RoundFails(src: Source, eager: Eager, st: LazyState, batch: seq<PageEntry>, qs: seq<PointQuery>, q: PointQuery)
    requires Openable(src, eager) && Tidy(src.env, eager.root, eager.pages) && Ready(src, eager, st, batch, qs)
    requires q in qs && (forall c :: c in batch ==> QueryReaches(src, q, c.key)) && !RoundPasses(src.env, st.pending, batch)
    ensures !LoadPages(src, st, batch).ok && LoadPages(src, st, batch).state.pending == []
    ensures Halted(src, eager, LoadPages(src, st, batch).state, batch[1..], qs)
  {
    hide Openable, Tidy, Ready, LoadPage, LoadPages, QueryReaches, HasChild, LeadsToPoints, PageChildren, LazyInvariant, Rooted, Absorbed,
      Unfetched, Wanted, PageAt, Halfway, ChildEntries, CountsAgree, Balanced, Listed, Holds;
    var r := RangeOf(batch[0]);
    assert batch[0] in batch;
    PageLoadsExactly(src, eager, st, batch, qs, q);
    OnePageLoads(src, st, batch[0]);
    assert batch[..1] == [batch[0]];
    LoadFails(src, st, batch, 1);
    ReadyParts(src, eager, st, batch, qs);
    OpenableLoaded(src, eager);
    ListedIsEager(src, eager, st, batch, qs, batch[0], q);
    HeldUnvisited(st, batch);
    PageAbsorbs(src, eager, st, batch, qs, r);
    AbsorbedKeepsInvariant(src, eager, st, batch, qs, r);
    var next := LoadPage(src, st, r).state;
    DropHeld(src, eager, next, batch, qs);
    RootedGrows(src.env, eager.root, st.fetched, batch[0]);
    forall c | c in batch[1..] ensures RangeOf(c) !in next.fetched {
      var k :| 0 <= k < |batch[1..]| && batch[1..][k] == c;
      assert batch[k + 1] == c && c in batch;
      HeldOthersUnvisited(st, batch, k + 1);
      HeldDiffer(st, batch, k + 1);
      TargetsDiffer(src, eager, st, batch, qs, batch[0], c);
    }
  }

  lemma HeldDiffer(st: LazyState, held: seq<PageEntry>, k: nat)
    requires Unfetched(st, held) && 0 < k < |held|
    ensures held[0] != held[k]
  {
  }

  /** The frontier at which a query is refused: the first that does not pass. */
  ghost predicate RefusedAt(env: Env, info: CopcInfo, q: PointQuery, pending: seq<PageEntry>, n: nat)
    requires LevelRange(q.lod).Ok?
  {
    && !FrontierPasses(env, info, q, Frontier(env, info, q, pending, n))
    && forall m: nat :: m < n ==> FrontierPasses(env, info, q, Frontier(env, info, q, pending, m))
  }

  /** The pages a refused query loses: those in reach of that frontier, after the first. */
  ghost function LostPages(env: Env, info: CopcInfo, q: PointQuery, pending: seq<PageEntry>, n: nat): seq<PageEntry>
    requires LevelRange(q.lod).Ok? && !FrontierPasses(env, info, q, Frontier(env, info, q, pending, n))
  {
    Relevant(Frontier(env, info, q, pending, n), info, q, true)[1..]
  }

  lemma RefusedLater(env: Env, info: CopcInfo, q: PointQuery, pending: seq<PageEntry>, n: nat)
    requires LevelRange(q.lod).Ok? && FrontierPasses(env, info, q, pending)
    requires RefusedAt(env, info, q, NextFrontier(env, info, q, pending), n)
    ensures RefusedAt(env, info, q, pending, n + 1)
    ensures LostPages(env, info, q, pending, n + 1) == LostPages(env, info, q, NextFrontier(env, info, q, pending), n)
  {
    hide FrontierPasses, NextFrontier, Relevant, LevelRange;
    var next := NextFrontier(env, info, q, pending);
    assert Frontier(env, info, q, pending, n + 1) == Frontier(env, info, q, next, n);
    assert Frontier(env, info, q, pending, 0) == pending;
    forall m: nat | m < n + 1 ensures FrontierPasses(env, info, q, Frontier(env, info, q, pending, m)) {
      if m > 0 {
        assert Frontier(env, info, q, pending, m) == Frontier(env, info, q, next, m - 1);
      }
    }
  }

  lemma RefusedNow(env: Env, info: CopcInfo, q: PointQuery, pending: seq<PageEntry>)
    requires LevelRange(q.lod).Ok? && !FrontierPasses(env, info, q, pending)
    ensures RefusedAt(env, info, q, pending, 0)
    ensures Relevant(pending, info, q, true) != [] && LostPages(env, info, q, pending, 0) == Relevant(pending, info, q, true)[1..]
  {
    hide Relevant, LevelRange, HasChild, NoneLeads;
  }

  /** A refused query stops at the first frontier that does not pass, and forgets the pages after its first. */
  lemma {:induction false} EnsureFails(src: Source, eager: Eager, st: LazyState, qs: seq<PointQuery>, q: PointQuery) returns (n: nat)
    requires Openable(src, eager) && Tidy(src.env, eager.root, eager.pages) && Ready(src, eager, st, [], qs) && q in qs
    requires LevelRange(q.lod).Ok? && !Ensure(src, st, q).ok
    ensures RefusedAt(src.env, src.info, q, st.pending, n) && Ensure(src, st, q).state.pending == []
    ensures Halted(src, eager, Ensure(src, st, q).state, LostPages(src.env, src.info, q, st.pending, n), qs)
    decreases Budget(st), |st.pending|
  {
    hide Openable, Tidy, Ready, LoadPages, Relevant, Ensure, Budget, LevelRange, PageMayMatch, RoundPasses, RoundChildren, QueryReaches, Halted,
      RefusedAt, LostPages;
    EnsureStopsOk(src, st, q);
    EnsureUnfolds(src, st, q);
    SplitReady(src, eager, st, qs, q);
    ReadyKnows(src, eager, st, qs);
    SplitPending(src, eager, st, qs, q);
    var batch := Relevant(st.pending, src.info, q, true);
    var start := st.(pending := Relevant(st.pending, src.info, q, false));
    RoundLoadsExactly(src, eager, start, batch, qs, q);
    if FrontierPasses(src.env, src.info, q, st.pending) {
      var loaded := LoadPages(src, start, batch);
      n := EnsureFails(src, eager, loaded.state, qs, q);
      RefusedLater(src.env, src.info, q, st.pending, n);
      n := n + 1;
    } else {
      RoundFails(src, eager, start, batch, qs, q);
      RefusedNow(src.env, src.info, q, st.pending);
      n := 0;
    }
  }

  lemma EnsureStopsOk(src: Source, st: LazyState, q: PointQuery)
    requires LevelRange(q.lod).Ok? && !Ensure(src, st, q).ok
    ensures st.pending != []
  {
  }

  // The exact cost ----------------------------------------------------------

  /** Every later query of the reader answers without the chunks below `lost`, and leaves the reader as it is. */
  ghost predicate LaterAnswers(input: CopcInput, src: Source, failed: LazyState, lost: seq<PageEntry>, q: PointQuery)
    requires OpenHierarchy(input).Ok?
  {
    var whole := Select(SortedValues(OpenHierarchy(input).value.hierarchy), src.info, q);
    && HierarchyFor(src, failed, q).0 == failed
    && AnswersWithout(src, HierarchyFor(src, failed, q).1, whole, lost)
    && (HierarchyFor(src, failed, q).1 == whole <==> (QueryAccepted(q) ==> NothingLost(src, lost, q)))
  }

  lemma HaltedLater(input: CopcInput, src: Source, st: LazyState, lost: seq<PageEntry>, qs: seq<PointQuery>, q: PointQuery)
    requires OpensAsTree(input, src) && st.pending == [] && Halted(src, EagerOf(input), st, lost, qs)
    ensures LaterAnswers(input, src, st, lost, q)
  {
    hide OpensAsTree, OpenHierarchy, Halted, Openable, Tidy, Select, SortedValues, AnswersWithout, NothingLost, HierarchyFor, EagerLoaded,
      QueryAccepted;
    TreeIsOpenable(input, src);
    OpenableLoaded(src, EagerOf(input));
    NothingPendingAnswers(src, st, q);
    HaltedAnswers(src, EagerOf(input), st, lost, qs, q);
    assert [] + lost == lost;
  }

  /**
   After any run of successful queries a query with a bad level range fails, and every later query answers as the eager
   reader does without the chunks below the pages then pending: the same answer exactly when it matches none of them.
   */
  lemma BadLevelHarmlessExactly(input: CopcInput, src: Source, qs: seq<PointQuery>, bad: PointQuery, q: PointQuery)
    requires OpensAsTree(input, src) && AllOk(src, OpenLazy(src, Root(input)).state, qs)
    requires QueryAccepted(bad) && LevelRange(bad.lod).Err?
    ensures OpenHierarchy(input).Ok?
    ensures var st := After(src, OpenLazy(src, Root(input)).state, qs);
      && HierarchyFor(src, st, bad).1.Err?
      && LaterAnswers(input, src, HierarchyFor(src, st, bad).0, FrontierAfter(src.env, src.info, qs, PageChildren(src.env, Root(input))), q)
  {
    hide Openable, Tidy, Ready, OpenLazy, AllOk, HierarchyFor, OpenHierarchy, After, LevelRange, OpensAsTree, LaterAnswers, Halted,
      FrontierAfter, PageChildren;
    TreeIsOpenable(input, src);
    RunStaysReady(src, EagerOf(input), qs, qs);
    var st := After(src, OpenLazy(src, Root(input)).state, qs);
    ReadyHalts(src, EagerOf(input), st, [], qs);
    DroppedHalts(src, EagerOf(input), st, qs);
    BadLevelDrops(src, st, bad);
    HaltedLater(input, src, st.(pending := []), st.pending, qs, q);
  }

  /**
   After any run of successful queries, a well-formed query that fails is refused at its first frontier that does not
   pass, and every later query answers as the eager reader does without the chunks below that frontier's pages in reach
   after the first: the same answer exactly when it matches none of them.
   */
  lemma FailedQueryHarmlessExactly(input: CopcInput, src: Source, qs: seq<PointQuery>, bad: PointQuery, q: PointQuery) returns (n: nat)
    requires OpensAsTree(input, src) && AllOk(src, OpenLazy(src, Root(input)).state, qs) && LevelAccepted(bad)
    requires HierarchyFor(src, After(src, OpenLazy(src, Root(input)).state, qs), bad).1.Err?
    ensures OpenHierarchy(input).Ok?
    ensures var pending := FrontierAfter(src.env, src.info, qs, PageChildren(src.env, Root(input)));
      && RefusedAt(src.env, src.info, bad, pending, n)
      && LaterAnswers(input, src, HierarchyFor(src, After(src, OpenLazy(src, Root(input)).state, qs), bad).0,
           LostPages(src.env, src.info, bad, pending, n), q)
  {
    hide Openable, Tidy, Ready, OpenLazy, AllOk, OpenHierarchy, After, LevelRange, OpensAsTree, LaterAnswers, Halted, FrontierAfter,
      PageChildren, Ensure, QueryPasses, SettledFrontier, FrontierPasses, Frontier, LostPages, HierarchyFor, Select, SortedValues;
    TreeIsOpenable(input, src);
    var eager := EagerOf(input);
    RunStaysReady(src, eager, qs, qs + [bad]);
    var st := After(src, OpenLazy(src, Root(input)).state, qs);
    ReadyQueryExactly(src, eager, st, qs + [bad], bad);
    EnsureExactly(src, eager, st, qs + [bad], bad);
    n := EnsureFails(src, eager, st, qs + [bad], bad);
    FailedState(src, st, bad);
    HaltedLater(input, src, Ensure(src, st, bad).state, LostPages(src.env, src.info, bad, st.pending, n), qs + [bad], q);
  }

  lemma FailedState(src: Source, st: LazyState, bad: PointQuery)
    requires QueryAccepted(bad)
    ensures HierarchyFor(src, st, bad).0 == Ensure(src, st, bad).state
  {
    hide Ensure, Select;
  }
}
