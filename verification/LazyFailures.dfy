/** What a failed query costs: a legal file whose first full query fails, and chunks lost to later queries. */
module LazyFailures {
  import opened Core
  import opened Voxel
  import opened Bounds
  import opened Codec
  import opened Hierarchy
  import opened ChunkRanges
  import opened Loader
  import opened LoaderFacts
  import opened Sorting
  import opened Selection
  import opened RangeReader
  import RoundTrip
  import opened LazyRuns
  import opened LazyReady
  import opened LazyRounds
  import opened LazyQueries
  import opened LazyLosses

  // A two-leaf file ---------------------------------------------------------

  const LEFT := VoxelKey(1, 0, 0, 0)
  const RIGHT := VoxelKey(1, 1, 0, 0)
  const LEFT_PAGE := Entry(LEFT, 864, 32, -1)
  const RIGHT_PAGE := Entry(RIGHT, 896, 32, -1)
  const LEFT_CHUNK := Entry(LEFT, 708, 10, 5)
  const RIGHT_CHUNK := Entry(RIGHT, 718, 10, 7)
  const ROOT_PAGE := ByteRange(800, 64)

  /**
   What a file holds before its hierarchy: 700 bytes of header and VLRs, the point-data section with the two chunks, and
   from byte 740 the header of the hierarchy EVLR. Nothing below depends on these bytes.
   */
  type Head = s: seq<byte> | |s| == 800 witness seq(800, _ => 0)

  ghost function FileOf(head: Head): seq<byte> {
    head + PageBytes([LEFT_PAGE, RIGHT_PAGE]) + PageBytes([LEFT_CHUNK]) + PageBytes([RIGHT_CHUNK])
  }

  ghost function InputOf(head: Head): CopcInput {
    CopcInput(FileOf(head), 700, 740, 12, 800, 64, 800, 128)
  }

  ghost function EnvAt(head: Head): Env {
    Env(FileOf(head), DataRanges(700, 740, 800, 928))
  }

  const INFO := CopcInfo(Vec3(0.0, 0.0, 0.0), 1.0)

  ghost function SourceAt(head: Head): Source {
    Source(EnvAt(head), INFO, 12)
  }

  lemma EntriesValid()
    ensures LEFT_PAGE.Valid() && RIGHT_PAGE.Valid() && LEFT_CHUNK.Valid() && RIGHT_CHUNK.Valid()
  {
    assert Pow2(1) == 2;
  }

  lemma FilePages(head: Head)
    ensures |FileOf(head)| == 928
    ensures LEFT_PAGE.Valid() && RIGHT_PAGE.Valid() && LEFT_CHUNK.Valid() && RIGHT_CHUNK.Valid()
    ensures PageAt(EnvAt(head), ROOT_PAGE) == Ok([LEFT_PAGE, RIGHT_PAGE])
    ensures PageAt(EnvAt(head), ByteRange(864, 32)) == Ok([LEFT_CHUNK])
    ensures PageAt(EnvAt(head), ByteRange(896, 32)) == Ok([RIGHT_CHUNK])
  {
    hide PageBytes, PageFromLe;
    EntriesValid();
    PageRoundTrip([LEFT_PAGE, RIGHT_PAGE]);
    PageRoundTrip([LEFT_CHUNK]);
    PageRoundTrip([RIGHT_CHUNK]);
    assert FileOf(head)[800..864] == PageBytes([LEFT_PAGE, RIGHT_PAGE]);
    assert FileOf(head)[864..896] == PageBytes([LEFT_CHUNK]);
    assert FileOf(head)[896..928] == PageBytes([RIGHT_CHUNK]);
  }

  lemma FileEntries(head: Head)
    ensures forall e :: e in {LEFT_PAGE, RIGHT_PAGE, LEFT_CHUNK, RIGHT_CHUNK} ==> EntryAccepted(EnvAt(head), e)
  {
    FilePages(head);
  }

  // One entry and two entries at a time.

  lemma InsertOne(env: Env, h: EntryMap, a: Entry)
    requires EntryAccepted(env, a) && Insertable(h, a)
    ensures InsertEntries(env, h, [a]) == Ok(h[a.key := a])
  {
    assert [a][..0] == [] && InsertEntries(env, h, []) == Ok(h);
  }

  lemma InsertTwo(env: Env, h: EntryMap, a: Entry, b: Entry)
    requires EntryAccepted(env, a) && Insertable(h, a) && EntryAccepted(env, b) && Insertable(h[a.key := a], b)
    ensures InsertEntries(env, h, [a, b]) == Ok(h[a.key := a][b.key := b])
  {
    InsertOne(env, h, a);
    assert [a, b][..1] == [a];
  }

  lemma PushTwo(w: Worklist, a: PageEntry, b: PageEntry)
    requires RangeOf(a) !in w.visited && RangeOf(b) !in w.visited && RangeOf(a) != RangeOf(b)
    ensures PushChildren(w, [a, b]).pending == w.pending + [RangeOf(a), RangeOf(b)]
  {
    assert [a, b][..1] == [a] && [a][..0] == [];
    assert PushChildren(w, []) == w;
    assert PushChildren(w, [a]) == Worklist(w.visited + {RangeOf(a)}, w.pending + [RangeOf(a)]);
  }

  lemma PushNone(w: Worklist, a: Entry)
    requires a.Valid() && !a.IsChildPage()
    ensures PushChildren(w, [a]) == w
  {
    assert [a][..0] == [] && PushChildren(w, []) == w;
  }

  ghost const WHOLE: EntryMap := map[LEFT := LEFT_CHUNK, RIGHT := RIGHT_CHUNK]

  /** A leaf page is read and its chunk replaces the child-page entry. */
  lemma LeafLoads(head: Head, st: LoadState, c: PageEntry, chunk: Entry)
    requires RangeOf(c).size == 32 && PageAt(EnvAt(head), RangeOf(c)) == Ok([chunk]) && PageAllowed(EnvAt(head), RangeOf(c), st.totalBytes)
    requires EntryAccepted(EnvAt(head), chunk) && !chunk.IsChildPage() && Insertable(st.hierarchy, chunk)
    ensures LoadRange(EnvAt(head), st, RangeOf(c)) == Ok(LoadState(
      st.hierarchy[chunk.key := chunk], st.work, st.totalBytes + 32, st.fetched + [RangeOf(c)]))
  {
    hide PageAt, InsertEntries, PushChildren, EntryAccepted, PageAllowed;
    PageEntriesValid(EnvAt(head), RangeOf(c));
    InsertOne(EnvAt(head), st.hierarchy, chunk);
    PushNone(st.work, chunk);
    assert [chunk][0] in [chunk];
  }

  lemma PageEntriesValid(env: Env, r: ByteRange)
    ensures PageAt(env, r).Ok? ==> forall e :: e in PageAt(env, r).value ==> e.Valid()
  {
  }

  ghost const PAGES: seq<ByteRange> := [ROOT_PAGE, ByteRange(896, 32), ByteRange(864, 32)]

  lemma EagerLoads(head: Head)
    ensures LoadAll(EnvAt(head), ROOT_PAGE).Ok?
    ensures LoadAll(EnvAt(head), ROOT_PAGE).value.hierarchy == WHOLE && LoadAll(EnvAt(head), ROOT_PAGE).value.fetched == PAGES
  {
    hide PageAt, InsertEntries, PushChildren, EntryAccepted, Run, Step;
    FilePages(head);
    FileEntries(head);
    var start := InitialState(ROOT_PAGE);
    InsertTwo(EnvAt(head), map[], LEFT_PAGE, RIGHT_PAGE);
    PushTwo(start.work, LEFT_PAGE, RIGHT_PAGE);
    var s0 := LoadRange(EnvAt(head), start, ROOT_PAGE).value;
    assert s0.work.pending == [RangeOf(LEFT_PAGE), RangeOf(RIGHT_PAGE)];
    RoundTrip.RunUnfolds(EnvAt(head), s0);
    assert s0.work.pending[..1] == [RangeOf(LEFT_PAGE)];
    var s1 := LoadState(s0.hierarchy[RIGHT := RIGHT_CHUNK], s0.work.(pending := [RangeOf(LEFT_PAGE)]), 96, s0.fetched + [RangeOf(RIGHT_PAGE)]);
    LeafLoads(head, s0.(work := s0.work.(pending := [RangeOf(LEFT_PAGE)])), RIGHT_PAGE, RIGHT_CHUNK);
    TakeTurn(head, s0, s1);
    RoundTrip.RunUnfolds(EnvAt(head), s1);
    assert s1.work.pending[..0] == [];
    var s2 := LoadState(s1.hierarchy[LEFT := LEFT_CHUNK], s1.work.(pending := []), 128, s1.fetched + [RangeOf(LEFT_PAGE)]);
    LeafLoads(head, s1.(work := s1.work.(pending := [])), LEFT_PAGE, LEFT_CHUNK);
    TakeTurn(head, s1, s2);
    RoundTrip.RunUnfolds(EnvAt(head), s2);
    assert s2.hierarchy == WHOLE;
  }

  lemma TakeTurn(head: Head, st: LoadState, next: LoadState)
    requires st.work.pending != []
    requires var n := |st.work.pending| - 1;
      LoadRange(EnvAt(head), st.(work := st.work.(pending := st.work.pending[..n])), st.work.pending[n]) == Ok(next)
    ensures Step(EnvAt(head), st) == Ok(next)
  {
  }

  lemma WholeIsFine(head: Head)
    ensures Keyed(WHOLE) && WholeAccepted(WHOLE, 12)
  {
    hide SortedValues, InsertRanges, EntriesPoints, EntryAccepted, MapSum, MapDisjoint, AllDisjoint, Lists, ChunkSized, Sound,
      HoldsExactly, InSection;
    FileEntries(head);
    SortedLists(WHOLE);
    ListSum(SortedValues(WHOLE), WHOLE);
    WholeSum();
    AcceptedSized(EnvAt(head), WHOLE);
    InsertRangesExact(SortedValues(WHOLE));
    WholeDisjoint();
    ListDisjoint(SortedValues(WHOLE), WHOLE);
  }

  lemma WholeSum()
    ensures MapSum(WHOLE, PointsOf) == 12
  {
    hide MapSum;
    MapSumRemove(WHOLE, PointsOf, LEFT);
    MapSumRemove(WHOLE - {LEFT}, PointsOf, RIGHT);
    RoundTrip.NothingAddsUp(WHOLE - {LEFT} - {RIGHT});
  }

  lemma WholeDisjoint()
    ensures MapDisjoint(WHOLE)
  {
  }

  /** The eager reader opens the file. */
  lemma EagerOpens(head: Head)
    ensures OpenHierarchy(InputOf(head)).Ok? && OpenHierarchy(InputOf(head)).value.hierarchy == WHOLE && OpenHierarchy(InputOf(head)).value.fetched == PAGES
  {
    hide LoadAll, WholeAccepted;
    EagerLoads(head);
    WholeIsFine(head);
    FilePages(head);
  }

  // The lazy reader on it ---------------------------------------------------

  lemma AbsorbOne(src: Source, st: LazyState, a: Entry)
    ensures AbsorbEntries(src, st, [a]) == AbsorbEntry(src, st, a)
  {
    assert [a][..0] == [] && AbsorbEntries(src, st, []) == Outcome(st, true);
  }

  lemma AbsorbTwo(src: Source, st: LazyState, a: Entry, b: Entry)
    requires AbsorbEntry(src, st, a).ok
    ensures AbsorbEntries(src, st, [a, b]) == AbsorbEntry(src, AbsorbEntry(src, st, a).state, b)
  {
    AbsorbOne(src, st, a);
    assert [a, b][..1] == [a];
  }

  ghost const OPENED: LazyState := LazyState(
    map[LEFT := LEFT_PAGE, RIGHT := RIGHT_PAGE], [LEFT_PAGE, RIGHT_PAGE], {ROOT_PAGE}, 64, 0, map[], [ROOT_PAGE])

  lemma LazyOpens(head: Head)
    ensures OpenLazy(SourceAt(head), ROOT_PAGE) == Outcome(OPENED, true)
  {
    hide PageAt, EntryAccepted, AbsorbEntries;
    FilePages(head);
    FileEntries(head);
    var read := FRESH.(visited := {ROOT_PAGE}, totalBytes := 64, fetched := [ROOT_PAGE]);
    assert FRESH.(visited := FRESH.visited + {ROOT_PAGE}, totalBytes := 64, fetched := FRESH.fetched + [ROOT_PAGE]) == read;
    AbsorbTwo(SourceAt(head), read, LEFT_PAGE, RIGHT_PAGE);
    assert AbsorbEntry(SourceAt(head), read, LEFT_PAGE).state.hierarchy == map[LEFT := LEFT_PAGE];
    assert AbsorbEntries(SourceAt(head), read, [LEFT_PAGE, RIGHT_PAGE]) == Outcome(OPENED, true);
  }

  lemma BothReached(info: CopcInfo)
    requires LEFT_PAGE.Valid() && RIGHT_PAGE.Valid()
    ensures Relevant([LEFT_PAGE, RIGHT_PAGE], info, EVERYTHING, true) == [LEFT_PAGE, RIGHT_PAGE]
    ensures Relevant([LEFT_PAGE, RIGHT_PAGE], info, EVERYTHING, false) == []
  {
    hide Relevant, PageMayMatch;
    EverythingReached(LEFT, info);
    EverythingReached(RIGHT, info);
    AllReached([LEFT_PAGE, RIGHT_PAGE], info, EVERYTHING);
  }

  lemma MapsGood()
    ensures Keyed(WHOLE) && Keyed(OPENED.hierarchy)
    ensures forall k :: k in WHOLE ==> WHOLE[k].Valid()
    ensures forall k :: k in OPENED.hierarchy ==> OPENED.hierarchy[k].Valid()
  {
    hide PageAt, Entry.Valid;
    EntriesValid();
  }

  lemma RightChunkMatches()
    ensures Matches(RIGHT_CHUNK, INFO, EVERYTHING)
  {
    EntriesValid();
  }

  lemma SelectsEverything(h: EntryMap)
    requires Keyed(h) && forall k :: k in h ==> h[k].Valid()
    ensures Select(SortedValues(h), INFO, EVERYTHING).Ok?
    ensures forall e :: e in Select(SortedValues(h), INFO, EVERYTHING).value <==>
      e in SortedValues(h) && Matches(e, INFO, EVERYTHING)
  {
    hide SortedValues, Matches, Sort, Selected;
    ValidSelectable(h, EVERYTHING);
    SelectMembers(SortedValues(h), INFO, EVERYTHING);
  }

  // Why ---------------------------------------------------------------------

  lemma FileOnPages(head: Head)
    ensures forall e :: OnPage(EnvAt(head), ROOT_PAGE, e) <==> e == LEFT_PAGE || e == RIGHT_PAGE
    ensures forall e :: OnPage(EnvAt(head), ByteRange(864, 32), e) <==> e == LEFT_CHUNK
    ensures forall e :: OnPage(EnvAt(head), ByteRange(896, 32), e) <==> e == RIGHT_CHUNK
    ensures forall r :: r in PAGES ==> PageAt(EnvAt(head), r).Ok? && DistinctEntryKeys(PageAt(EnvAt(head), r).value)
  {
    hide PageAt;
    FilePages(head);
  }

  /** A root page listing two leaf pages, each holding the entry that replaces its own. */
  ghost predicate TwoLeaves(env: Env, root: ByteRange, a: PageEntry, b: PageEntry, x: Entry, y: Entry) {
    && root != RangeOf(a) && root != RangeOf(b) && RangeOf(a) != RangeOf(b)
    && x.key == a.key && y.key == b.key && a.key != b.key && !x.IsChildPage() && !y.IsChildPage()
    && (forall e :: OnPage(env, root, e) <==> e == a || e == b)
    && (forall e :: OnPage(env, RangeOf(a), e) <==> e == x)
    && (forall e :: OnPage(env, RangeOf(b), e) <==> e == y)
  }

  lemma TwoLeavesClash(env: Env, root: ByteRange, a: PageEntry, b: PageEntry, x: Entry, y: Entry, p: ByteRange, r: ByteRange, d: Entry, e: Entry)
    requires TwoLeaves(env, root, a, b, x, y) && p in [root, RangeOf(b), RangeOf(a)] && r in [root, RangeOf(b), RangeOf(a)]
    requires p != r && OnPage(env, p, d) && OnPage(env, r, e) && d.key == e.key
    ensures Replaces(d, r, e) || Replaces(e, p, d)
  {
    hide OnPage, Entry.Valid;
  }

  lemma TwoLeavesTarget(env: Env, root: ByteRange, a: PageEntry, b: PageEntry, x: Entry, y: Entry, p: ByteRange, r: ByteRange, d: Entry, e: Entry)
    requires TwoLeaves(env, root, a, b, x, y) && p in [root, RangeOf(b), RangeOf(a)] && r in [root, RangeOf(b), RangeOf(a)]
    requires OnPage(env, p, d) && OnPage(env, r, e) && SameTarget(d, e)
    ensures p == r && d == e && RangeOf(d) != root
  {
    hide OnPage, Entry.Valid;
  }

  lemma TwoLeavesTidy(env: Env, root: ByteRange, a: PageEntry, b: PageEntry, x: Entry, y: Entry)
    requires TwoLeaves(env, root, a, b, x, y)
    requires forall r :: r in [root, RangeOf(b), RangeOf(a)] ==> PageAt(env, r).Ok? && DistinctEntryKeys(PageAt(env, r).value)
    ensures Tidy(env, root, [root, RangeOf(b), RangeOf(a)])
  {
    hide OnPage, TwoLeaves, DistinctEntryKeys, Replaces, PageAt;
    var pages := [root, RangeOf(b), RangeOf(a)];
    forall p, r, d, e | p in pages && r in pages && p != r && OnPage(env, p, d) && OnPage(env, r, e) && d.key == e.key
      ensures Replaces(d, r, e) || Replaces(e, p, d)
    {
      TwoLeavesClash(env, root, a, b, x, y, p, r, d, e);
    }
    forall p, r, c, d | p in pages && r in pages && OnPage(env, p, c) && OnPage(env, r, d) && SameTarget(c, d) ensures p == r && c == d {
      TwoLeavesTarget(env, root, a, b, x, y, p, r, c, d);
    }
    forall p, c | p in pages && OnPage(env, p, c) && c.Valid() && c.IsChildPage() ensures RangeOf(c) != root {
      TwoLeavesTarget(env, root, a, b, x, y, p, p, c, c);
    }
  }

  /** The second leaf leads to points and the first has no child page, so a round of just the two cannot pass. */
  lemma TwoLeavesFail(env: Env, root: ByteRange, a: PageEntry, b: PageEntry, x: Entry, y: Entry)
    requires TwoLeaves(env, root, a, b, x, y) && y.HasPointData()
    ensures !RoundPasses(env, [], [a, b])
  {
    hide OnPage;
    assert OnPage(env, RangeOf(b), y);
    ReachesSelf(env, RangeOf(b));
    PointsAhead(env, RangeOf(b), RangeOf(b), 0);
    assert [a, b][1..] == [b] && b in [b];
  }

  lemma HasTwoLeaves(env: Env)
    requires LEFT_PAGE.Valid() && RIGHT_PAGE.Valid()
    requires forall e :: OnPage(env, ROOT_PAGE, e) <==> e == LEFT_PAGE || e == RIGHT_PAGE
    requires forall e :: OnPage(env, ByteRange(864, 32), e) <==> e == LEFT_CHUNK
    requires forall e :: OnPage(env, ByteRange(896, 32), e) <==> e == RIGHT_CHUNK
    ensures TwoLeaves(env, ROOT_PAGE, LEFT_PAGE, RIGHT_PAGE, LEFT_CHUNK, RIGHT_CHUNK)
  {
    hide OnPage, Entry.Valid;
  }

  lemma FileHasTwoLeaves(head: Head)
    ensures LEFT_PAGE.Valid() && RIGHT_PAGE.Valid()
    ensures TwoLeaves(EnvAt(head), ROOT_PAGE, LEFT_PAGE, RIGHT_PAGE, LEFT_CHUNK, RIGHT_CHUNK)
  {
    hide OnPage, PageAt, TwoLeaves, Entry.Valid;
    FilePages(head);
    FileOnPages(head);
    HasTwoLeaves(EnvAt(head));
  }

  /** The file's pages form a tree: it is the count test alone that fails. */
  lemma FileIsTidy(head: Head)
    ensures Tidy(EnvAt(head), ROOT_PAGE, PAGES)
  {
    hide PageAt, OnPage, DistinctEntryKeys, TwoLeaves, Tidy;
    FileHasTwoLeaves(head);
    FileOnPages(head);
    TwoLeavesTidy(EnvAt(head), ROOT_PAGE, LEFT_PAGE, RIGHT_PAGE, LEFT_CHUNK, RIGHT_CHUNK);
  }

  /** The first frontier of the query for everything does not pass, which is why the query fails. */
  lemma FirstFrontierFails(head: Head)
    ensures LevelRange(EVERYTHING.lod).Ok?
    ensures LEFT_PAGE.Valid() && RIGHT_PAGE.Valid()
    ensures !FrontierPasses(EnvAt(head), INFO, EVERYTHING, [LEFT_PAGE, RIGHT_PAGE])
  {
    hide Relevant, TwoLeaves, RoundPasses;
    FileHasTwoLeaves(head);
    BothReached(INFO);
    TwoLeavesFail(EnvAt(head), ROOT_PAGE, LEFT_PAGE, RIGHT_PAGE, LEFT_CHUNK, RIGHT_CHUNK);
  }

  lemma FileOpensAsTree(head: Head)
    ensures OpensAsTree(InputOf(head), SourceAt(head)) && Root(InputOf(head)) == ROOT_PAGE
    ensures OpenLazy(SourceAt(head), ROOT_PAGE) == Outcome(OPENED, true)
    ensures AllOk(SourceAt(head), OPENED, []) && After(SourceAt(head), OPENED, []) == OPENED
  {
    hide OpenHierarchy, OpenLazy, Tidy;
    EagerOpens(head);
    LazyOpens(head);
    FileIsTidy(head);
  }

  lemma FileFrontier(head: Head)
    ensures LEFT_PAGE.Valid() && RIGHT_PAGE.Valid()
    ensures FrontierAfter(EnvAt(head), INFO, [], PageChildren(EnvAt(head), ROOT_PAGE)) == [LEFT_PAGE, RIGHT_PAGE]
  {
    hide PageAt;
    FilePages(head);
    TwoChildren(LEFT_PAGE, RIGHT_PAGE);
  }

  lemma TwoChildren(a: PageEntry, b: PageEntry)
    ensures ChildEntries([a, b]) == [a, b]
  {
    assert [a, b][..1] == [a] && [a][..0] == [] && ChildEntries([]) == [] && ChildEntries([a]) == [a];
  }

  /** The exact condition, applied to this file, predicts the failure. */
  lemma FailureFollows(head: Head)
    ensures HierarchyFor(SourceAt(head), OpenLazy(SourceAt(head), Root(InputOf(head))).state, EVERYTHING).1.Err?
  {
    hide OpenLazy, HierarchyFor, FrontierPasses, QueryPasses, NextFrontier, LevelRange, OpensAsTree, FrontierAfter, AllOk, After,
      PageChildren;
    FileOpensAsTree(head);
    FileFrontier(head);
    FirstFrontierFails(head);
    QueryPassesUnfolds(EnvAt(head), INFO, EVERYTHING, [LEFT_PAGE, RIGHT_PAGE]);
    LazyQueryOkExactly(InputOf(head), SourceAt(head), [], EVERYTHING);
  }

  /**
   A legal two-leaf file: the eager reader opens it and finds both chunks, the lazy reader opens it too, but its
   first query for everything fails; asked again it succeeds without the second chunk.
   */
  lemma FullQueryCanFail(head: Head)
    ensures OpenHierarchy(InputOf(head)).Ok? && OpenLazy(SourceAt(head), Root(InputOf(head))).ok
    ensures var eager := SortedValues(OpenHierarchy(InputOf(head)).value.hierarchy);
      Select(eager, INFO, EVERYTHING).Ok? && RIGHT_CHUNK in Select(eager, INFO, EVERYTHING).value
    ensures var (after, answer) := HierarchyFor(SourceAt(head), OpenLazy(SourceAt(head), Root(InputOf(head))).state, EVERYTHING);
      && answer.Err?
      && HierarchyFor(SourceAt(head), after, EVERYTHING).1.Ok?
      && RIGHT_CHUNK !in HierarchyFor(SourceAt(head), after, EVERYTHING).1.value
  {
    hide OpenHierarchy, OpenLazy, SortedValues, Select, LevelRange, Matches, HierarchyFor, OpensAsTree, FrontierAfter, AllOk, After, Below,
      PageChildren, FrontierPasses, Frontier, LostPages, RefusedAt, QueryAccepted;
    FileOpensAsTree(head);
    FailureFollows(head);
    WholeAnswer(head);
    FileFrontier(head);
    EverythingAccepted();
    var n := FailedQueryHarmlessExactly(InputOf(head), SourceAt(head), [], EVERYTHING, EVERYTHING);
    RightLost(head, n);
  }

  lemma WholeAnswer(head: Head)
    ensures OpenHierarchy(InputOf(head)).Ok?
    ensures var whole := Select(SortedValues(OpenHierarchy(InputOf(head)).value.hierarchy), INFO, EVERYTHING);
      whole.Ok? && RIGHT_CHUNK in whole.value
  {
    hide OpenHierarchy, SortedValues, Select, LevelRange, Matches;
    EagerOpens(head);
    MapsGood();
    SelectsEverything(WHOLE);
    ValuesMembers(WHOLE, RIGHT_CHUNK);
    RightChunkMatches();
  }

  /** The refused frontier is the first one, and the second leaf page is lost. */
  lemma RightLost(head: Head, n: nat)
    requires LEFT_PAGE.Valid() && RIGHT_PAGE.Valid() && LevelRange(EVERYTHING.lod).Ok?
    requires RefusedAt(EnvAt(head), INFO, EVERYTHING, [LEFT_PAGE, RIGHT_PAGE], n)
    ensures Below(EnvAt(head), LostPages(EnvAt(head), INFO, EVERYTHING, [LEFT_PAGE, RIGHT_PAGE], n), RIGHT_CHUNK)
  {
    hide Relevant, FrontierPasses, OnPage, LevelRange, PageAt;
    FirstFrontierFails(head);
    assert Frontier(EnvAt(head), INFO, EVERYTHING, [LEFT_PAGE, RIGHT_PAGE], 0) == [LEFT_PAGE, RIGHT_PAGE];
    assert n == 0;
    BothReached(INFO);
    FileOnPages(head);
    ReachesSelf(EnvAt(head), RangeOf(RIGHT_PAGE));
    BelowBy(EnvAt(head), [RIGHT_PAGE], RIGHT_PAGE, RangeOf(RIGHT_PAGE), 0, RIGHT_CHUNK);
  }

  // Dropped pages -----------------------------------------------------------

  const BAD_LEVEL := PointQuery(Level(-1), None)

  /**
   On the same file a query for a negative level fails, and the query for everything after it succeeds without either
   chunk, though the eager reader finds both.
   */
  lemma BadLevelLosesChunks(head: Head)
    ensures OpenHierarchy(InputOf(head)).Ok? && OpenLazy(SourceAt(head), Root(InputOf(head))) == Outcome(OPENED, true)
    ensures var eager := Select(SortedValues(OpenHierarchy(InputOf(head)).value.hierarchy), INFO, EVERYTHING);
      eager.Ok? && RIGHT_CHUNK in eager.value
    ensures var (after, answer) := HierarchyFor(SourceAt(head), OPENED, BAD_LEVEL);
      && answer.Err?
      && HierarchyFor(SourceAt(head), after, EVERYTHING).1.Ok?
      && RIGHT_CHUNK !in HierarchyFor(SourceAt(head), after, EVERYTHING).1.value
  {
    hide OpenHierarchy, OpenLazy, Ensure, SortedValues, Select, LevelRange, Matches, HierarchyFor;
    LazyOpens(head);
    WholeAnswer(head);
    BadLevelIsBad();
    BadLevelDrops(SourceAt(head), OPENED, BAD_LEVEL);
    NothingPendingAnswers(SourceAt(head), OPENED.(pending := []), EVERYTHING);
    MapsGood();
    SelectsEverything(OPENED.hierarchy);
    ValuesMembers(OPENED.hierarchy, RIGHT_CHUNK);
  }

  lemma BadLevelIsBad()
    ensures QueryAccepted(BAD_LEVEL) && LevelRange(BAD_LEVEL.lod).Err?
  {
  }
}
