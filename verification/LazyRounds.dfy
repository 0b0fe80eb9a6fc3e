/** One round of page loads on an openable file: exactly when it succeeds, and what its failure costs. */
module LazyRounds {
  import opened Core
  import opened Voxel
  import opened Codec
  import opened Hierarchy
  import opened ChunkRanges
  import opened Loader
  import opened LoaderFacts
  import opened Selection
  import opened RangeReader
  import opened LazyEager
  import opened LazyRuns
  import opened LazyAccounts
  import opened LazyReady

  /** Every fetched page but the root is pointed at by a fetched page. */
  ghost predicate Rooted(env: Env, root: ByteRange, fetched: seq<ByteRange>) {
    forall r :: r in fetched ==> r == root || Pointed(env, fetched, r)
  }

  ghost predicate Pointed(env: Env, fetched: seq<ByteRange>, r: ByteRange) {
    exists p, c :: p in fetched && OnPage(env, p, c) && c.Valid() && c.IsChildPage() && RangeOf(c) == r
  }

  /** Pending and held pages are distinct and not yet fetched. */
  ghost predicate Unfetched(st: LazyState, held: seq<PageEntry>) {
    && NoRepeat(st.pending) && NoRepeat(held)
    && (forall c :: c in st.pending ==> c !in held)
    && (forall c :: c in st.pending || c in held ==> RangeOf(c) !in st.visited)
  }

  ghost predicate Ready(src: Source, eager: Eager, st: LazyState, held: seq<PageEntry>, qs: seq<PointQuery>) {
    && LazyInvariant(src, eager, st, held, qs) && Balanced(st)
    && Rooted(src.env, eager.root, st.fetched) && Unfetched(st, held)
    && NoRepeat(st.fetched) && st.totalBytes == SeqBytes(st.fetched)
  }

  // One page ----------------------------------------------------------------

  function ChildEntries(entries: seq<Entry>): (s: seq<PageEntry>)
    ensures forall c :: c in s <==> c in entries && c.Valid() && c.IsChildPage()
  {
    if entries == [] then []
    else
      var n := |entries| - 1;
      ChildEntries(entries[..n]) + (if entries[n].Valid() && entries[n].IsChildPage() then [entries[n]] else [])
  }

  lemma {:induction false} ChildEntriesDistinct(entries: seq<Entry>)
    requires DistinctEntryKeys(entries)
    ensures NoRepeat(ChildEntries(entries))
  {
    if entries != [] {
      hide Entry.Valid;
      var n := |entries| - 1;
      ChildEntriesDistinct(entries[..n]);
      forall c | c in ChildEntries(entries[..n]) ensures c != entries[n] {
        var i :| 0 <= i < n && entries[i] == c;
      }
      if entries[n].Valid() && entries[n].IsChildPage() {
        NoRepeatAppend(ChildEntries(entries[..n]), [entries[n]]);
      }
    }
  }

  lemma {:induction false} AbsorbQueues(src: Source, st: LazyState, entries: seq<Entry>)
    requires AbsorbEntries(src, st, entries).ok
    ensures AbsorbEntries(src, st, entries).state.pending == st.pending + ChildEntries(entries)
  {
    if entries != [] {
      hide InsertRange, EntryAccepted, Insertable, Entry.Valid;
      var n := |entries| - 1;
      AbsorbQueues(src, st, entries[..n]);
      AcceptedValid(src.env, entries[n]);
    }
  }

  lemma TidyClash(env: Env, root: ByteRange, pages: seq<ByteRange>, p: ByteRange, r: ByteRange, d: Entry, e: Entry)
    requires Tidy(env, root, pages) && p in pages && r in pages && p != r
    requires OnPage(env, p, d) && OnPage(env, r, e) && d.key == e.key
    ensures Replaces(d, r, e) || Replaces(e, p, d)
  {
    hide OnPage, DistinctEntryKeys, Replaces;
  }

  lemma TidyTarget(env: Env, root: ByteRange, pages: seq<ByteRange>, p: ByteRange, r: ByteRange, c: Entry, d: Entry)
    requires Tidy(env, root, pages) && p in pages && r in pages
    requires OnPage(env, p, c) && OnPage(env, r, d) && SameTarget(c, d)
    ensures p == r && c == d
  {
    hide OnPage, DistinctEntryKeys, SameTarget;
  }

  /** What an unfetched page points at is unfetched too. */
  lemma TargetUnfetched(env: Env, root: ByteRange, pages: seq<ByteRange>, fetched: seq<ByteRange>, r: ByteRange, c: PageEntry)
    requires Tidy(env, root, pages) && Rooted(env, root, fetched) && forall p :: p in fetched ==> p in pages
    requires r in pages && r !in fetched && OnPage(env, r, c)
    ensures RangeOf(c) !in fetched && RangeOf(c) != root
  {
    hide OnPage, DistinctEntryKeys;
    if RangeOf(c) in fetched {
      assert Pointed(env, fetched, RangeOf(c));
      var p, d :| p in fetched && OnPage(env, p, d) && d.Valid() && d.IsChildPage() && RangeOf(d) == RangeOf(c);
      TidyTarget(env, root, pages, p, r, d, c);
    }
  }

  /** No entry of an unfetched page clashes with a loaded one. */
  lemma NeverSeen(src: Source, eager: Eager, st: LazyState, held: seq<PageEntry>, qs: seq<PointQuery>, r: ByteRange, e: Entry)
    requires Tidy(src.env, eager.root, eager.pages) && Ready(src, eager, st, held, qs)
    requires r in eager.pages && r !in st.fetched && OnPage(src.env, r, e)
    ensures Insertable(st.hierarchy, e)
  {
    hide OnPage, EntryAccepted, Balanced, LazyInvariant, Unfetched, Tidy, Rooted, Ready, Stored;
    ReadyParts(src, eager, st, held, qs);
    if e.key in st.hierarchy {
      var d := st.hierarchy[e.key];
      var p :| p in st.fetched && OnPage(src.env, p, d);
      TidyClash(src.env, eager.root, eager.pages, p, r, d, e);
      if Replaces(e, p, d) {
        TargetUnfetched(src.env, eager.root, eager.pages, st.fetched, r, e);
      }
    }
  }

  lemma NoneSeen(src: Source, eager: Eager, st: LazyState, held: seq<PageEntry>, qs: seq<PointQuery>, r: ByteRange, entries: seq<Entry>)
    requires Tidy(src.env, eager.root, eager.pages) && Ready(src, eager, st, held, qs)
    requires r in eager.pages && r !in st.fetched && PageAt(src.env, r) == Ok(entries)
    ensures Unseen(st.hierarchy, entries)
  {
    hide Tidy, Ready, Insertable;
    forall e | e in entries ensures Insertable(st.hierarchy, e) {
      assert OnPage(src.env, r, e);
      NeverSeen(src, eager, st, held, qs, r, e);
    }
  }

  /** An unfetched page of the file passes every check made before its entries are looked at. */
  lemma PageFits(src: Source, eager: Eager, st: LazyState, held: seq<PageEntry>, qs: seq<PointQuery>, r: ByteRange)
    requires Openable(src, eager) && Ready(src, eager, st, held, qs) && r in eager.pages && r !in st.fetched
    ensures PageSized(src.env, r) && st.totalBytes + r.size <= MAX_HIERARCHY_TOTAL_BYTES
    ensures NoRepeat(st.fetched + [r]) && st.totalBytes + r.size == SeqBytes(st.fetched + [r])
  {
    hide Complete, PageSized, Balanced, Known, Wanted, Unfetched, Rooted, Holds, MapDisjoint, MapSum;
    NoRepeatAppend(st.fetched, [r]);
    assert (st.fetched + [r])[..|st.fetched|] == st.fetched;
    SeqBytesSubset(st.fetched + [r], eager.pages);
  }

  lemma NothingDone(src: Source, eager: Eager, st: LazyState, held: seq<PageEntry>, qs: seq<PointQuery>, r: ByteRange)
    requires Ready(src, eager, st, held, qs)
    ensures var read := st.(visited := st.visited + {r}, totalBytes := st.totalBytes + r.size, fetched := st.fetched + [r]);
      Halfway(src, eager, st, [], read)
  {
    hide OnPage, EntryAccepted, Known, Wanted, Unfetched, Rooted, RangesMatch, Sound, MapSum;
    forall k | k in st.hierarchy ensures Listed(src.env, eager.pages, st.hierarchy[k]) {
      var p :| p in st.fetched && OnPage(src.env, p, st.hierarchy[k]);
      assert p in eager.pages;
    }
  }

  /** The load of an unseen page takes all its entries; only the count test after them can fail. */
  lemma PageAbsorbs(src: Source, eager: Eager, st: LazyState, held: seq<PageEntry>, qs: seq<PointQuery>, r: ByteRange)
    requires Openable(src, eager) && Tidy(src.env, eager.root, eager.pages) && Ready(src, eager, st, held, qs)
    requires r in eager.pages && r !in st.visited
    ensures PageAt(src.env, r).Ok?
    ensures var entries := PageAt(src.env, r).value; var o := LoadPage(src, st, r);
      && o.state.pending == st.pending + ChildEntries(entries)
      && o.state.fetched == st.fetched + [r] && o.state.visited == st.visited + {r}
      && o.state.totalBytes == st.totalBytes + r.size
      && Halfway(src, eager, st, entries, o.state)
      && Absorbed(src, st, r)
      && (o.ok <==> CountsAgree(src, o.state))
  {
    hide Openable, Ready, Halfway, AbsorbEntries, PageAt, CountsAgree, InFile;
    NotFetched(src, eager, st, held, qs, r);
    TidyPage(src.env, eager.root, eager.pages, r);
    var entries := PageAt(src.env, r).value;
    var read := st.(visited := st.visited + {r}, totalBytes := st.totalBytes + r.size, fetched := st.fetched + [r]);
    NoneSeen(src, eager, st, held, qs, r, entries);
    PageFits(src, eager, st, held, qs, r);
    NothingDone(src, eager, st, held, qs, r);
    EntriesAbsorb(src, eager, st, r, read, entries, |entries|);
    assert entries[..|entries|] == entries;
    AbsorbQueues(src, read, entries);
  }

  lemma NotFetched(src: Source, eager: Eager, st: LazyState, held: seq<PageEntry>, qs: seq<PointQuery>, r: ByteRange)
    requires Ready(src, eager, st, held, qs) && r !in st.visited
    ensures r !in st.fetched
  {
    hide Known, Wanted, Holds, Balanced, Rooted, Unfetched;
  }

  lemma TidyPage(env: Env, root: ByteRange, pages: seq<ByteRange>, r: ByteRange)
    requires Tidy(env, root, pages) && r in pages
    ensures PageAt(env, r).Ok? && DistinctEntryKeys(PageAt(env, r).value)
  {
    hide OnPage, DistinctEntryKeys;
  }

  // The count test ----------------------------------------------------------

  /** A load in progress never counts more points than the file has. */
  lemma NeverTooMany(src: Source, eager: Eager, st: LazyState, done: seq<Entry>, now: LazyState)
    requires Openable(src, eager) && Halfway(src, eager, st, done, now)
    ensures now.loadedPoints <= src.numberOfPoints
  {
    hide MapSum, Listed, Readable, Connected, RangesMatch, Sound, MapDisjoint;
    FromPagesBelow(src.env, eager.pages, now.hierarchy, eager.hierarchy);
    SumBelowSums(now.hierarchy, eager.hierarchy);
  }

  lemma HalfwayFrom(src: Source, eager: Eager, st: LazyState, entries: seq<Entry>, now: LazyState, r: ByteRange, k: VoxelKey)
    requires Holds(src.env, st.fetched, st.hierarchy) && PageAt(src.env, r) == Ok(entries)
    requires Halfway(src, eager, st, entries, now) && k in now.hierarchy
    ensures Listed(src.env, st.fetched + [r], now.hierarchy[k]) && now.hierarchy[k].key == k
  {
    hide EntryAccepted, Balanced, Stored;
    if k in st.hierarchy && now.hierarchy[k] == st.hierarchy[k] {
      var p :| p in st.fetched && OnPage(src.env, p, st.hierarchy[k]);
      assert p in st.fetched + [r];
    } else {
      assert r in st.fetched + [r] && OnPage(src.env, r, now.hierarchy[k]);
    }
  }

  /** While a page of the file that holds points is unfetched, points are missing. */
  lemma MissingPage(src: Source, eager: Eager, fetched: seq<ByteRange>, now: LazyState, missing: ByteRange)
    requires Openable(src, eager) && Tidy(src.env, eager.root, eager.pages) && Balanced(now)
    requires forall r :: r in fetched ==> r in eager.pages
    requires forall k :: k in now.hierarchy ==> now.hierarchy[k].key == k && Listed(src.env, fetched, now.hierarchy[k])
    requires missing in eager.pages && missing !in fetched && HasPoints(src.env, missing)
    ensures now.loadedPoints < src.numberOfPoints
  {
    hide MapSum, OnPage, Readable, Connected, RangesMatch, Sound, MapDisjoint, EntryAccepted, DistinctEntryKeys;
    var e :| OnPage(src.env, missing, e) && e.HasPointData();
    assert Stored(eager.hierarchy, e);
    forall k | k in now.hierarchy ensures Listed(src.env, eager.pages, now.hierarchy[k]) {
      var p :| p in fetched && OnPage(src.env, p, now.hierarchy[k]);
      assert p in eager.pages;
    }
    FromPagesBelow(src.env, eager.pages, now.hierarchy, eager.hierarchy);
    if e.key in now.hierarchy {
      var p :| p in fetched && OnPage(src.env, p, now.hierarchy[e.key]);
      assert Replaces(now.hierarchy[e.key], missing, e) || Replaces(e, p, now.hierarchy[e.key]);
    }
    SumStrictlyBelow(now.hierarchy, eager.hierarchy, e.key);
  }

  /** Two maps holding what the same pages hold are equal. */
  lemma HoldsUnique(env: Env, a: seq<ByteRange>, g: EntryMap, b: seq<ByteRange>, h: EntryMap)
    requires Holds(env, a, g) && Holds(env, b, h) && forall r :: r in a <==> r in b
    ensures g == h
  {
    hide EntryAccepted, OnPage;
    forall k | k in g ensures k in h && g[k] == h[k] {
      var r :| r in a && OnPage(env, r, g[k]);
      assert Stored(h, g[k]);
      var r' :| r' in b && OnPage(env, r', h[k]);
      assert Stored(g, h[k]);
    }
    forall k | k in h ensures k in g {
      var r :| r in b && OnPage(env, r, h[k]);
      assert Stored(g, h[k]);
    }
    assert g.Keys == h.Keys;
  }

  /** A lazy reader with nothing left pending holds the eager hierarchy. */
  lemma FullyLoaded(src: Source, eager: Eager, st: LazyState, qs: seq<PointQuery>)
    requires EagerLoaded(src, eager) && LazyInvariant(src, eager, st, [], qs) && st.pending == []
    ensures st.hierarchy == eager.hierarchy
  {
    hide Holds, Known, Wanted, Connected, OnPage;
    forall r | r in eager.pages ensures r in st.fetched {
      if r !in st.fetched {
        var i :| 0 <= i < |eager.pages| && eager.pages[i] == r;
        var c, n := UnfetchedIsAhead(src, eager, st, [], qs, i);
      }
    }
    HoldsUnique(src.env, st.fetched, st.hierarchy, eager.pages, eager.hierarchy);
  }

  // Staying ready -----------------------------------------------------------

  /** A child page listed only on an unfetched page is itself nowhere yet. */
  lemma ChildIsNew(src: Source, eager: Eager, st: LazyState, held: seq<PageEntry>, qs: seq<PointQuery>, r: ByteRange, c: PageEntry)
    requires EagerLoaded(src, eager) && Tidy(src.env, eager.root, eager.pages) && Ready(src, eager, st, held, qs)
    requires r in eager.pages && r !in st.fetched && OnPage(src.env, r, c)
    ensures c !in st.pending && c !in held && RangeOf(c) !in st.visited
    ensures forall d :: d in st.pending || d in held ==> RangeOf(d) != RangeOf(c)
  {
    hide OnPage, Balanced, LazyInvariant, Tidy, Ready, Unfetched, Rooted;
    ReadyParts(src, eager, st, held, qs);
    TargetUnfetched(src.env, eager.root, eager.pages, st.fetched, r, c);
    forall d | d in st.pending || d in held ensures RangeOf(d) != RangeOf(c) {
      assert Listed(src.env, st.fetched, d);
      var p :| p in st.fetched && OnPage(src.env, p, d);
      if SameTarget(d, c) {
        TidyTarget(src.env, eager.root, eager.pages, p, r, d, c);
      }
    }
  }

  lemma RootedGrows(env: Env, root: ByteRange, fetched: seq<ByteRange>, c: PageEntry)
    requires Rooted(env, root, fetched) && Listed(env, fetched, c)
    ensures Rooted(env, root, fetched + [RangeOf(c)])
  {
    hide OnPage;
    var more := fetched + [RangeOf(c)];
    forall r | r in more && r != root ensures Pointed(env, more, r) {
      if r in fetched {
        assert Pointed(env, fetched, r);
        var p, d :| p in fetched && OnPage(env, p, d) && d.Valid() && d.IsChildPage() && RangeOf(d) == r;
        assert p in more;
      } else {
        var p :| p in fetched && OnPage(env, p, c);
        assert p in more;
      }
    }
  }

  /** Two waiting entries of a tidy file never point at one page. */
  lemma TargetsDiffer(src: Source, eager: Eager, st: LazyState, held: seq<PageEntry>, qs: seq<PointQuery>, c: PageEntry, d: PageEntry)
    requires Tidy(src.env, eager.root, eager.pages) && Ready(src, eager, st, held, qs)
    requires (c in st.pending || c in held) && (d in st.pending || d in held) && c != d
    ensures RangeOf(c) != RangeOf(d)
  {
    hide OnPage, Balanced, Wanted, Holds, DistinctEntryKeys, Rooted, Unfetched;
    assert Listed(src.env, st.fetched, c) && Listed(src.env, st.fetched, d);
    var p :| p in st.fetched && OnPage(src.env, p, c);
    var r :| r in st.fetched && OnPage(src.env, r, d);
    assert p in eager.pages && r in eager.pages;
    assert !SameTarget(c, d);
  }

  lemma UnfetchedAfter(src: Source, eager: Eager, st: LazyState, held: seq<PageEntry>, qs: seq<PointQuery>, next: LazyState)
    requires EagerLoaded(src, eager) && Tidy(src.env, eager.root, eager.pages) && held != [] && Ready(src, eager, st, held, qs)
    requires RangeOf(held[0]) in eager.pages && RangeOf(held[0]) !in st.fetched && PageAt(src.env, RangeOf(held[0])).Ok?
    requires next.pending == st.pending + ChildEntries(PageAt(src.env, RangeOf(held[0])).value)
    requires next.visited == st.visited + {RangeOf(held[0])}
    ensures Unfetched(next, held[1..])
  {
    hide LazyInvariant, Tidy, Balanced, Rooted, Entry.Valid, PageAt, EagerLoaded, Ready;
    var r, tail := RangeOf(held[0]), held[1..];
    var entries := PageAt(src.env, r).value;
    assert Unfetched(st, held) by {
      ReadyParts(src, eager, st, held, qs);
    }
    TidyPage(src.env, eager.root, eager.pages, r);
    ChildEntriesDistinct(entries);
    forall c | c in ChildEntries(entries) ensures c !in st.pending && c !in held && RangeOf(c) !in st.visited && RangeOf(c) != r {
      assert OnPage(src.env, r, c);
      ChildIsNew(src, eager, st, held, qs, r, c);
      assert held[0] in held;
    }
    NoRepeatAppend(st.pending, ChildEntries(entries));
    assert forall c :: c in tail ==> c in held && c != held[0];
    forall c | c in st.pending || c in tail ensures RangeOf(c) != r {
      TargetsDiffer(src, eager, st, held, qs, c, held[0]);
    }
  }

  lemma ReadyParts(src: Source, eager: Eager, st: LazyState, held: seq<PageEntry>, qs: seq<PointQuery>)
    requires Ready(src, eager, st, held, qs)
    ensures LazyInvariant(src, eager, st, held, qs) && Balanced(st)
    ensures Rooted(src.env, eager.root, st.fetched) && Unfetched(st, held)
    ensures forall c :: c in st.pending || c in held ==> Listed(src.env, st.fetched, c)
    ensures forall r :: r in st.fetched <==> r in st.visited
    ensures forall r :: r in st.fetched ==> r in eager.pages
    ensures Holds(src.env, st.fetched, st.hierarchy)
  {
    hide Holds, Wanted, Balanced, Listed, Rooted, Unfetched, OnPage;
  }

  /** Loading the first held page leaves the reader ready for the rest. */
  lemma PageKeepsReady(src: Source, eager: Eager, st: LazyState, held: seq<PageEntry>, qs: seq<PointQuery>, q: PointQuery)
    requires Openable(src, eager) && Tidy(src.env, eager.root, eager.pages) && held != [] && Ready(src, eager, st, held, qs)
    requires q in qs && QueryReaches(src, q, held[0].key)
    requires LoadPage(src, st, RangeOf(held[0])).ok
    ensures Ready(src, eager, LoadPage(src, st, RangeOf(held[0])).state, held[1..], qs)
  {
    hide LazyInvariant, Tidy, Balanced, Rooted, Unfetched, Entry.Valid, PageAt, Complete, LoadPage, Listed, NoRepeat,
      Wanted, MapSum, MapDisjoint, Readable, QueryReaches, CountsAgree, ChildEntries;
    var r := RangeOf(held[0]);
    ReadyParts(src, eager, st, held, qs);
    assert held[0] in held;
    ListedIsEager(src, eager, st, held, qs, held[0], q);
    assert r !in st.visited by {
      HeldUnvisited(st, held);
    }
    PageAbsorbs(src, eager, st, held, qs, r);
    PageKeepsInvariant(src, eager, st, held, qs, r);
    var next := LoadPage(src, st, r).state;
    DropHeld(src, eager, next, held, qs);
    PageFits(src, eager, st, held, qs, r);
    RootedGrows(src.env, eager.root, st.fetched, held[0]);
    UnfetchedAfter(src, eager, st, held, qs, next);
  }

  lemma HeldUnvisited(st: LazyState, held: seq<PageEntry>)
    requires Unfetched(st, held) && held != []
    ensures RangeOf(held[0]) !in st.visited
  {
    assert held[0] in held;
  }

  // One round ---------------------------------------------------------------

  /** None of the pages, nor any page below them, holds a point entry. */
  ghost predicate NoneLeads(env: Env, pages: seq<PageEntry>) {
    forall c :: c in pages ==> !LeadsToPoints(env, RangeOf(c))
  }

  /**
   The test a caller could make of the file before a round: a page stays pending throughout, or the first page of the
   round points at further pages, or nothing after the first page leads to points.
   */
  ghost predicate RoundPasses(env: Env, rest: seq<PageEntry>, batch: seq<PageEntry>) {
    rest != [] || batch == [] || HasChild(env, RangeOf(batch[0])) || NoneLeads(env, batch[1..])
  }

  lemma ChildKeepsPending(env: Env, r: ByteRange)
    requires PageAt(env, r).Ok?
    ensures ChildEntries(PageAt(env, r).value) != [] <==> HasChild(env, r)
  {
    var s := ChildEntries(PageAt(env, r).value);
    if s != [] {
      assert s[0] in s;
      assert OnPage(env, r, s[0]);
    }
    if HasChild(env, r) {
      var e :| OnPage(env, r, e) && e.Valid() && e.IsChildPage();
      assert e in s;
    }
  }

  /** The child-page entries of a page of the file. */
  ghost function PageChildren(env: Env, r: ByteRange): seq<PageEntry> {
    if PageAt(env, r).Ok? then ChildEntries(PageAt(env, r).value) else []
  }

  /** The next page of a round loads exactly when something stays pending or nothing ahead leads to points. */
  lemma PageLoadsExactly(src: Source, eager: Eager, st: LazyState, held: seq<PageEntry>, qs: seq<PointQuery>, q: PointQuery)
    requires Openable(src, eager) && Tidy(src.env, eager.root, eager.pages) && held != [] && Ready(src, eager, st, held, qs)
    requires q in qs && QueryReaches(src, q, held[0].key)
    ensures LoadPage(src, st, RangeOf(held[0])).ok <==>
      st.pending != [] || HasChild(src.env, RangeOf(held[0])) || NoneLeads(src.env, held[1..])
    ensures LoadPage(src, st, RangeOf(held[0])).state.pending == st.pending + PageChildren(src.env, RangeOf(held[0]))
    ensures HasChild(src.env, RangeOf(held[0])) <==> PageChildren(src.env, RangeOf(held[0])) != []
  {
    hide LazyInvariant, Tidy, Balanced, Rooted, Unfetched, Entry.Valid, PageAt, Complete, LoadPage, NoRepeat, Listed,
      Wanted, MapSum, MapDisjoint, Readable, QueryReaches, ChildEntries, Openable, Ready, Halfway, HasChild, LeadsToPoints, Absorbed;
    var r := RangeOf(held[0]);
    ReadyParts(src, eager, st, held, qs);
    assert held[0] in held;
    OpenableLoaded(src, eager);
    ListedIsEager(src, eager, st, held, qs, held[0], q);
    HeldUnvisited(st, held);
    PageAbsorbs(src, eager, st, held, qs, r);
    ChildKeepsPending(src.env, r);
    var o := LoadPage(src, st, r);
    NeverTooMany(src, eager, st, PageAt(src.env, r).value, o.state);
    if o.state.pending == [] {
      if c :| c in held[1..] && LeadsToPoints(src.env, RangeOf(c)) {
        HeldPageMissing(src, eager, st, held, qs, c);
      } else {
        HalfwayBalances(src, eager, st, PageAt(src.env, r).value, o.state);
        RestCounts(src, eager, st, held, qs, q);
      }
    }
  }

  lemma HalfwayBalances(src: Source, eager: Eager, st: LazyState, done: seq<Entry>, now: LazyState)
    requires Halfway(src, eager, st, done, now)
    ensures Balanced(now)
  {
  }

  lemma OpenableLoaded(src: Source, eager: Eager)
    requires Openable(src, eager)
    ensures EagerLoaded(src, eager)
  {
  }

  /** A page of the file that is not fetched is below a page still pending or held. */
  lemma {:induction false} UnfetchedIsAhead(src: Source, eager: Eager, st: LazyState, held: seq<PageEntry>, qs: seq<PointQuery>, i: nat)
    returns (c: PageEntry, n: nat)
    requires EagerLoaded(src, eager) && LazyInvariant(src, eager, st, held, qs)
    requires i < |eager.pages| && eager.pages[i] !in st.fetched
    ensures (c in st.pending || c in held) && Reaches(src.env, RangeOf(c), eager.pages[i], n)
    decreases i
  {
    hide EagerLoaded, LazyInvariant, OnPage, Reaches;
    RootFetched(src, eager, st, held, qs);
    var j, d := Referrer(src, eager, i);
    if eager.pages[j] in st.fetched {
      ChildAhead(src, eager, st, held, qs, eager.pages[j], d);
      ReachesSelf(src.env, RangeOf(d));
      c, n := d, 0;
    } else {
      var m;
      c, m := UnfetchedIsAhead(src, eager, st, held, qs, j);
      ReachesOn(src.env, RangeOf(c), eager.pages[j], m, d);
      n := m + 1;
    }
  }

  lemma ChildAhead(src: Source, eager: Eager, st: LazyState, held: seq<PageEntry>, qs: seq<PointQuery>, r: ByteRange, c: PageEntry)
    requires LazyInvariant(src, eager, st, held, qs) && r in st.fetched && OnPage(src.env, r, c)
    ensures RangeOf(c) in st.fetched || c in st.pending || c in held
  {
    hide OnPage, Holds, Wanted, Listed;
  }

  lemma ReachesSelf(env: Env, r: ByteRange)
    ensures Reaches(env, r, r, 0)
  {
  }

  lemma ReachesOn(env: Env, r: ByteRange, q: ByteRange, n: nat, c: PageEntry)
    requires Reaches(env, r, q, n) && OnPage(env, q, c)
    ensures Reaches(env, r, RangeOf(c), n + 1)
  {
    hide OnPage;
  }

  /** What is below an unfetched page is in the file and unfetched. */
  lemma {:induction false} BelowUnfetched(src: Source, eager: Eager, fetched: seq<ByteRange>, r: ByteRange, t: ByteRange, n: nat)
    requires EagerLoaded(src, eager) && Tidy(src.env, eager.root, eager.pages) && Rooted(src.env, eager.root, fetched)
    requires forall p :: p in fetched ==> p in eager.pages
    requires r in eager.pages && r !in fetched && Reaches(src.env, r, t, n)
    ensures t in eager.pages && t !in fetched
    decreases n
  {
    hide Tidy, Rooted, OnPage, Connected, Holds;
    if n > 0 {
      var q, c :| Reaches(src.env, r, q, n - 1) && OnPage(src.env, q, c) && c.Valid() && c.IsChildPage() && RangeOf(c) == t;
      BelowUnfetched(src, eager, fetched, r, q, n - 1);
      TargetUnfetched(src.env, eager.root, eager.pages, fetched, q, c);
    }
  }

  lemma PointsAhead(env: Env, r: ByteRange, t: ByteRange, n: nat)
    requires Reaches(env, r, t, n) && HasPoints(env, t)
    ensures LeadsToPoints(env, r)
  {
  }

  /** When no page ahead leads to points, the total is the header's. */
  lemma NothingMissing(src: Source, eager: Eager, st: LazyState, held: seq<PageEntry>, qs: seq<PointQuery>)
    requires Openable(src, eager) && LazyInvariant(src, eager, st, held, qs) && Balanced(st)
    requires NoneLeads(src.env, st.pending) && NoneLeads(src.env, held)
    ensures st.loadedPoints >= src.numberOfPoints
  {
    hide MapSum, MapDisjoint, Readable, RangesMatch, Sound, Connected, Known, Wanted, Reaches, EntryAccepted, OnPage;
    var g, h := eager.hierarchy, st.hierarchy;
    forall k | k in g && PointsOf(g[k]) > 0 ensures k in h && PointsOf(g[k]) <= PointsOf(h[k]) {
      var r :| r in eager.pages && OnPage(src.env, r, g[k]);
      if r in st.fetched {
        assert Stored(h, g[k]);
      } else {
        var i :| 0 <= i < |eager.pages| && eager.pages[i] == r;
        var c, n := UnfetchedIsAhead(src, eager, st, held, qs, i);
        assert HasPoints(src.env, r);
        PointsAhead(src.env, RangeOf(c), r, n);
      }
    }
    SumBelowSums(g, h);
  }

  /** Once a page is in, and no page ahead leads to points, the count is the header's. */
  lemma RestCounts(src: Source, eager: Eager, st: LazyState, held: seq<PageEntry>, qs: seq<PointQuery>, q: PointQuery)
    requires Openable(src, eager) && held != [] && LazyInvariant(src, eager, st, held, qs)
    requires q in qs && QueryReaches(src, q, held[0].key)
    requires Absorbed(src, st, RangeOf(held[0])) && Balanced(LoadPage(src, st, RangeOf(held[0])).state)
    requires LoadPage(src, st, RangeOf(held[0])).state.pending == [] && NoneLeads(src.env, held[1..])
    ensures LoadPage(src, st, RangeOf(held[0])).state.loadedPoints >= src.numberOfPoints
  {
    hide LazyInvariant, Complete, LoadPage, Wanted, MapSum, MapDisjoint, Readable, QueryReaches, Absorbed, RangesMatch, Sound,
      LeadsToPoints, Balanced;
    assert held[0] in held;
    ListedIsEager(src, eager, st, held, qs, held[0], q);
    AbsorbedKeepsInvariant(src, eager, st, held, qs, RangeOf(held[0]));
    var next := LoadPage(src, st, RangeOf(held[0])).state;
    DropHeld(src, eager, next, held, qs);
    NothingMissing(src, eager, next, held[1..], qs);
  }

  lemma HeldInEager(src: Source, eager: Eager, st: LazyState, held: seq<PageEntry>, qs: seq<PointQuery>, c: PageEntry)
    requires EagerLoaded(src, eager) && LazyInvariant(src, eager, st, held, qs) && c in held
    ensures RangeOf(c) in eager.pages
  {
    hide Holds, Connected, Wanted;
    assert Listed(src.env, st.fetched, c);
    var r :| r in st.fetched && OnPage(src.env, r, c);
  }

  /** While a held page leads to points, points are missing. */
  lemma HeldPageMissing(src: Source, eager: Eager, st: LazyState, held: seq<PageEntry>, qs: seq<PointQuery>, c: PageEntry)
    requires Openable(src, eager) && Tidy(src.env, eager.root, eager.pages) && held != [] && Ready(src, eager, st, held, qs)
    requires c in held[1..] && LeadsToPoints(src.env, RangeOf(c))
    requires PageAt(src.env, RangeOf(held[0])).Ok? && RangeOf(held[0]) in eager.pages
    requires Halfway(src, eager, st, PageAt(src.env, RangeOf(held[0])).value, LoadPage(src, st, RangeOf(held[0])).state)
    ensures LoadPage(src, st, RangeOf(held[0])).state.loadedPoints < src.numberOfPoints
  {
    hide LazyInvariant, Tidy, Balanced, Rooted, Entry.Valid, PageAt, LoadPage, Listed, Openable, Ready, FromPages, Complete, Reaches, HasPoints;
    var r := RangeOf(held[0]);
    var entries := PageAt(src.env, r).value;
    ReadyParts(src, eager, st, held, qs);
    OpenableLoaded(src, eager);
    var k :| 0 <= k < |held[1..]| && held[1..][k] == c;
    assert held[0] in held && held[k + 1] in held && held[0] != held[k + 1];
    HeldInEager(src, eager, st, held, qs, c);
    HeldOthersUnvisited(st, held, k + 1);
    TargetsDiffer(src, eager, st, held, qs, held[0], c);
    RootedGrows(src.env, eager.root, st.fetched, held[0]);
    var t, n: nat :| Reaches(src.env, RangeOf(c), t, n) && HasPoints(src.env, t);
    BelowUnfetched(src, eager, st.fetched + [r], RangeOf(c), t, n);
    var now := LoadPage(src, st, r).state;
    forall k | k in now.hierarchy
      ensures now.hierarchy[k].key == k && Listed(src.env, st.fetched + [r], now.hierarchy[k])
    {
      HalfwayFrom(src, eager, st, entries, now, r, k);
    }
    MissingPage(src, eager, st.fetched + [r], now, t);
  }

  lemma HeldOthersUnvisited(st: LazyState, held: seq<PageEntry>, k: nat)
    requires Unfetched(st, held) && k < |held|
    ensures RangeOf(held[k]) !in st.visited
  {
    assert held[k] in held;
  }

  // Whole rounds ------------------------------------------------------------

  /** The child-page entries of the pages of a round, in the order they are queued. */
  ghost function RoundChildren(env: Env, batch: seq<PageEntry>): seq<PageEntry> {
    if batch == [] then [] else RoundChildren(env, batch[..|batch| - 1]) + PageChildren(env, RangeOf(batch[|batch| - 1]))
  }

  lemma RoundChildrenGrow(env: Env, batch: seq<PageEntry>, n: nat)
    requires n < |batch|
    ensures RoundChildren(env, []) == []
    ensures RoundChildren(env, batch[..n + 1]) == RoundChildren(env, batch[..n]) + PageChildren(env, RangeOf(batch[n]))
  {
    assert batch[..n + 1][..n] == batch[..n];
  }

  lemma {:induction false} PagesKeepReady(src: Source, eager: Eager, st: LazyState, batch: seq<PageEntry>,
    qs: seq<PointQuery>, q: PointQuery, n: nat)
    requires Openable(src, eager) && Tidy(src.env, eager.root, eager.pages) && Ready(src, eager, st, batch, qs)
    requires q in qs && (forall c :: c in batch ==> QueryReaches(src, q, c.key))
    requires n <= |batch| && RoundPasses(src.env, st.pending, batch)
    ensures LoadPages(src, st, batch[..n]).ok
    ensures Ready(src, eager, LoadPages(src, st, batch[..n]).state, batch[n..], qs)
    ensures LoadPages(src, st, batch[..n]).state.pending == st.pending + RoundChildren(src.env, batch[..n])
    ensures n >= 1 && HasChild(src.env, RangeOf(batch[0])) ==> RoundChildren(src.env, batch[..n]) != []
  {
    hide Openable, Tidy, Ready, LoadPage, QueryReaches, HasChild, PageChildren, RoundChildren, LeadsToPoints;
    if n == 0 {
      assert batch[0..] == batch && batch[..0] == [];
      NoRoundChildren(src.env);
    } else {
      assert batch[..n][..n - 1] == batch[..n - 1];
      PagesKeepReady(src, eager, st, batch, qs, q, n - 1);
      var before := LoadPages(src, st, batch[..n - 1]).state;
      var held := batch[n - 1..];
      assert held[0] == batch[n - 1] && held[1..] == batch[n..];
      RoundChildrenGrow(src.env, batch, n - 1);
      PageLoadsExactly(src, eager, before, held, qs, q);
      LaterLead(src.env, batch, n);
      assert n == 1 ==> batch[..0] == [];
      NoRoundChildren(src.env);
      PageKeepsReady(src, eager, before, held, qs, q);
    }
  }

  lemma NoRoundChildren(env: Env)
    ensures RoundChildren(env, []) == []
  {
  }

  lemma LaterLead(env: Env, batch: seq<PageEntry>, n: nat)
    requires 1 <= n <= |batch|
    ensures NoneLeads(env, batch[1..]) ==> NoneLeads(env, batch[n..])
  {
    hide LeadsToPoints;
    assert batch[n..] == batch[1..][n - 1..];
    assert forall c :: c in batch[1..][n - 1..] ==> c in batch[1..];
  }

  /**
   A round of page loads on a file the eager reader opens succeeds exactly when some pending page is out of the query's
   reach, or the first page it loads points at further pages, or no later page of the round leads to points.
   */
  lemma RoundLoadsExactly(src: Source, eager: Eager, st: LazyState, batch: seq<PageEntry>, qs: seq<PointQuery>, q: PointQuery)
    requires Openable(src, eager) && Tidy(src.env, eager.root, eager.pages) && Ready(src, eager, st, batch, qs)
    requires q in qs && (forall c :: c in batch ==> QueryReaches(src, q, c.key))
    ensures LoadPages(src, st, batch).ok <==> RoundPasses(src.env, st.pending, batch)
    ensures LoadPages(src, st, batch).ok ==> Ready(src, eager, LoadPages(src, st, batch).state, [], qs)
    ensures LoadPages(src, st, batch).ok ==>
      LoadPages(src, st, batch).state.pending == st.pending + RoundChildren(src.env, batch)
  {
    hide Openable, Tidy, Ready, LoadPage, LoadPages, QueryReaches, HasChild, LeadsToPoints, RoundChildren, PageChildren;
    assert batch[..|batch|] == batch && batch[|batch|..] == [];
    if RoundPasses(src.env, st.pending, batch) {
      PagesKeepReady(src, eager, st, batch, qs, q, |batch|);
    } else {
      PageLoadsExactly(src, eager, st, batch, qs, q);
      OnePageLoads(src, st, batch[0]);
      assert batch[..1] == [batch[0]];
      LoadFails(src, st, batch, 1);
    }
  }

  lemma OnePageLoads(src: Source, st: LazyState, c: PageEntry)
    ensures LoadPages(src, st, [c]) == LoadPage(src, st, RangeOf(c))
  {
    hide LoadPage;
    assert LoadPages(src, st, [c][..0]) == Outcome(st, true);
  }

  // Readiness over a run ----------------------------------------------------

  /** A file the eager reader opens, the lazy reader opens. */
  lemma OpenAbsorbs(src: Source, eager: Eager)
    requires Openable(src, eager) && Tidy(src.env, eager.root, eager.pages)
    ensures Absorbed(src, FRESH, eager.root)
    ensures var o := OpenLazy(src, eager.root);
      && o.state.pending == PageChildren(src.env, eager.root) && Balanced(o.state)
      && o.state.totalBytes == eager.root.size && o.state.fetched == [eager.root]
      && (o.ok <==> CountsAgree(src, o.state)) && o.state.loadedPoints <= src.numberOfPoints
  {
    hide Complete, MapSum, MapDisjoint, AbsorbEntries, PageAt, OnPage, Halfway, Insertable, CountsAgree, InFile, Tidy, Balanced;
    var r := eager.root;
    RootInPages(src, eager);
    TidyPage(src.env, eager.root, eager.pages, r);
    var entries := PageAt(src.env, r).value;
    var read := FRESH.(visited := FRESH.visited + {r}, totalBytes := FRESH.totalBytes + r.size, fetched := FRESH.fetched + [r]);
    assert Unseen(map[], entries) by {
      NothingSeen(entries);
    }
    assert Halfway(src, eager, FRESH, [], read) by {
      FreshHalfway(src, eager, read);
    }
    OneRangeBytes(r);
    SeqBytesSubset([r], eager.pages);
    EntriesAbsorb(src, eager, FRESH, r, read, entries, |entries|);
    assert entries[..|entries|] == entries;
    AbsorbQueues(src, read, entries);
    var o := OpenLazy(src, r);
    NeverTooMany(src, eager, FRESH, entries, o.state);
    HalfwayBalances(src, eager, FRESH, entries, o.state);
  }

  lemma NothingSeen(entries: seq<Entry>)
    ensures Unseen(map[], entries)
  {
  }

  lemma FreshHalfway(src: Source, eager: Eager, read: LazyState)
    requires read.hierarchy == map[] && read.ranges == map[] && read.loadedPoints == 0
    ensures Halfway(src, eager, FRESH, [], read)
  {
  }

  lemma OneRangeBytes(r: ByteRange)
    ensures SeqBytes([r]) == r.size && NoRepeat([r])
  {
    assert [r][..0] == [];
  }

  lemma OpenIsReady(src: Source, eager: Eager, qs: seq<PointQuery>)
    requires Openable(src, eager) && Tidy(src.env, eager.root, eager.pages)
    ensures OpenLazy(src, eager.root).ok && Ready(src, eager, OpenLazy(src, eager.root).state, [], qs)
    ensures OpenLazy(src, eager.root).state.pending == PageChildren(src.env, eager.root)
  {
    hide LazyInvariant, Balanced, Complete, MapSum, MapDisjoint, Readable, PageAt, OnPage, Holds, Known, Absorbed, OpenLazy, Tidy, LeadsToPoints,
      HasChild, PageChildren;
    OpenAbsorbs(src, eager);
    OpenKnowsRoot(src, eager.root);
    OpenableLoaded(src, eager);
    OpenEstablishes(src, eager, qs);
    var st := OpenLazy(src, eager.root).state;
    RootChildren(src, eager);
    OneRangeBytes(eager.root);
    if st.pending == [] {
      NothingMissing(src, eager, st, [], qs);
    }
  }

  /** The root page's child-page entries are distinct and point away from it. */
  lemma RootChildren(src: Source, eager: Eager)
    requires EagerLoaded(src, eager) && Tidy(src.env, eager.root, eager.pages)
    ensures NoRepeat(PageChildren(src.env, eager.root))
    ensures forall c :: c in PageChildren(src.env, eager.root) ==> RangeOf(c) != eager.root
  {
    hide Complete, PageAt, DistinctEntryKeys;
    RootInPages(src, eager);
    TidyPage(src.env, eager.root, eager.pages, eager.root);
    ChildEntriesDistinct(PageAt(src.env, eager.root).value);
    forall c | c in PageChildren(src.env, eager.root) ensures RangeOf(c) != eager.root {
      OnPageMeans(src.env, eager.root, c);
    }
  }

  lemma OnPageMeans(env: Env, r: ByteRange, e: Entry)
    ensures OnPage(env, r, e) <==> PageAt(env, r).Ok? && e in PageAt(env, r).value
  {
    hide PageAt;
  }

  lemma RootInPages(src: Source, eager: Eager)
    requires EagerLoaded(src, eager)
    ensures eager.root in eager.pages
  {
    hide Holds, PointedAt, OnPage;
    assert eager.pages[0] == eager.root;
  }

  /** Choosing the round's batch keeps the reader ready. */
  lemma {:induction false} RelevantDistinct(pending: seq<PageEntry>, info: CopcInfo, q: PointQuery, wanted: bool)
    requires LevelRange(q.lod).Ok? && NoRepeat(pending)
    ensures NoRepeat(Relevant(pending, info, q, wanted))
  {
    if pending != [] {
      hide PageMayMatch, LevelRange;
      var n := |pending| - 1;
      RelevantDistinct(pending[..n], info, q, wanted);
      var before := Relevant(pending[..n], info, q, wanted);
      forall c | c in before ensures c != pending[n] {
        var i :| 0 <= i < n && pending[i] == c;
      }
      NoRepeatAppend(before, if PageMayMatch(pending[n].key, info, q) == wanted then [pending[n]] else []);
    }
  }

  lemma SplitReady(src: Source, eager: Eager, st: LazyState, qs: seq<PointQuery>, q: PointQuery)
    requires Ready(src, eager, st, [], qs) && LevelRange(q.lod).Ok?
    ensures Ready(src, eager, st.(pending := Relevant(st.pending, src.info, q, false)), Relevant(st.pending, src.info, q, true), qs)
  {
    hide LazyInvariant, Rooted, Relevant, PageMayMatch, LevelRange, Balanced;
    SplitPending(src, eager, st, qs, q);
    RelevantDistinct(st.pending, src.info, q, true);
    RelevantDistinct(st.pending, src.info, q, false);
    PendingIsNoAccount(st, Relevant(st.pending, src.info, q, false));
  }
}
