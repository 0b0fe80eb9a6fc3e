/** When a lazy query succeeds: what an openable file guarantees, and the one check that can still fail. */
module LazyReady {
  import opened Core
  import opened Voxel
  import opened Codec
  import opened Hierarchy
  import opened ChunkRanges
  import opened Loader
  import opened LoaderFacts
  import opened Selection
  import opened RangeReader
  import opened LazyEager
  import opened LazyRuns
  import opened LazyAccounts

  // Distinct ranges and their bytes -----------------------------------------

  ghost predicate NoRepeat<T>(s: seq<T>) {
    forall i, j :: 0 <= i < j < |s| ==> s[i] != s[j]
  }

  lemma NoRepeatAppend<T>(a: seq<T>, b: seq<T>)
    requires NoRepeat(a) && NoRepeat(b) && forall x :: x in a ==> x !in b
    ensures NoRepeat(a + b)
  {
    forall i, j | 0 <= i < j < |a + b| ensures (a + b)[i] != (a + b)[j] {
      if i < |a| <= j {
        assert a[i] in a && b[j - |a|] in b;
      }
    }
  }

  ghost function SeqBytes(s: seq<ByteRange>): nat {
    if s == [] then 0 else SeqBytes(s[..|s| - 1]) + s[|s| - 1].size
  }

  lemma {:induction false} SeqBytesRemove(s: seq<ByteRange>, i: nat)
    requires i < |s|
    ensures SeqBytes(s) == SeqBytes(s[..i] + s[i + 1..]) + s[i].size
    decreases |s|
  {
    var n := |s| - 1;
    if i < n {
      SeqBytesRemove(s[..n], i);
      var less := s[..i] + s[i + 1..];
      assert less[..|less| - 1] == s[..n][..i] + s[..n][i + 1..];
    } else {
      assert s[..i] + s[i + 1..] == s[..n];
    }
  }

  /** Distinct ranges taken from a list have no more bytes than the list. */
  lemma {:induction false} SeqBytesSubset(a: seq<ByteRange>, b: seq<ByteRange>)
    requires NoRepeat(a) && forall r :: r in a ==> r in b
    ensures SeqBytes(a) <= SeqBytes(b)
    decreases |a|
  {
    if a != [] {
      var n := |a| - 1;
      assert a[n] in a;
      var i :| 0 <= i < |b| && b[i] == a[n];
      var less := b[..i] + b[i + 1..];
      SeqBytesRemove(b, i);
      forall r | r in a[..n] ensures r in less {
        var j :| 0 <= j < n && a[j] == r;
        assert a[j] in a && a[j] != a[n];
        var k :| 0 <= k < |b| && b[k] == r;
        assert less[if k < i then k else k - 1] == r;
      }
      SeqBytesSubset(a[..n], less);
    }
  }

  predicate PageSized(env: Env, r: ByteRange) {
    && r.size != 0 && r.size % HIERARCHY_ENTRY_BYTES == 0
    && r.size <= MAX_HIERARCHY_PAGE_BYTES && InFile(env.bytes, r.offset, r.size)
  }

  /** The pages of a tree can all be read once within the byte budget. */
  ghost predicate Readable(env: Env, pages: seq<ByteRange>) {
    && NoRepeat(pages) && SeqBytes(pages) <= MAX_HIERARCHY_TOTAL_BYTES
    && forall r :: r in pages ==> PageSized(env, r)
  }

  /** The worklist never holds a range twice, and its byte total is that of the pages it fetched. */
  ghost predicate Clean(env: Env, st: LoadState) {
    && NoRepeat(st.fetched + st.work.pending)
    && (forall r :: r in st.fetched || r in st.work.pending ==> r in st.work.visited)
    && (forall r :: r in st.fetched ==> PageSized(env, r))
    && st.totalBytes == SeqBytes(st.fetched) <= MAX_HIERARCHY_TOTAL_BYTES
  }

  lemma {:induction false} PushClean(fetched: seq<ByteRange>, w: Worklist, entries: seq<Entry>)
    requires forall e :: e in entries ==> e.Valid()
    requires NoRepeat(fetched + w.pending) && forall r :: r in fetched || r in w.pending ==> r in w.visited
    ensures var w' := PushChildren(w, entries);
      NoRepeat(fetched + w'.pending) && forall r :: r in fetched || r in w'.pending ==> r in w'.visited
  {
    if entries != [] {
      hide Entry.Valid;
      var n := |entries| - 1;
      PushClean(fetched, w, entries[..n]);
      var w' := PushChildren(w, entries[..n]);
      if entries[n].IsChildPage() {
        var r := RangeOf(entries[n]);
        assert fetched + (w'.pending + [r]) == (fetched + w'.pending) + [r];
        if r !in w'.visited {
          NoRepeatAppend(fetched + w'.pending, [r]);
        }
      }
    }
  }

  lemma RangeClean(env: Env, st: LoadState, r: ByteRange)
    requires NoRepeat(st.fetched + [r] + st.work.pending)
    requires forall q :: q in st.fetched || q in st.work.pending || q == r ==> q in st.work.visited
    requires forall q :: q in st.fetched ==> PageSized(env, q)
    requires st.totalBytes == SeqBytes(st.fetched) <= MAX_HIERARCHY_TOTAL_BYTES
    requires LoadRange(env, st, r).Ok?
    ensures Clean(env, LoadRange(env, st, r).value)
  {
    hide PushChildren, InsertEntries, PageAt, NoRepeat, InFile;
    var page := ReadPage(env, r, st.totalBytes).value;
    PushClean(st.fetched + [r], st.work, page.0);
    assert (st.fetched + [r])[..|st.fetched|] == st.fetched;
  }

  lemma StepClean(env: Env, st: LoadState)
    requires Clean(env, st) && st.work.pending != [] && Step(env, st).Ok?
    ensures Clean(env, Step(env, st).value)
  {
    hide LoadRange, PageSized, SeqBytes;
    var n := |st.work.pending| - 1;
    var r := st.work.pending[n];
    var popped := st.(work := st.work.(pending := st.work.pending[..n]));
    assert r in st.work.pending;
    assert forall q :: q in st.work.pending[..n] ==> q in st.work.pending;
    MoveRange(st.fetched, st.work.pending);
    RangeClean(env, popped, r);
  }

  lemma MoveRange(fetched: seq<ByteRange>, pending: seq<ByteRange>)
    requires pending != [] && NoRepeat(fetched + pending)
    ensures var n := |pending| - 1; NoRepeat(fetched + [pending[n]] + pending[..n])
  {
    var n, all := |pending| - 1, fetched + pending;
    var moved := fetched + [pending[n]] + pending[..n];
    forall i, j | 0 <= i < j < |moved| ensures moved[i] != moved[j] {
      var i' := if i < |fetched| then i else if i == |fetched| then |all| - 1 else i - 1;
      var j' := if j < |fetched| then j else if j == |fetched| then |all| - 1 else j - 1;
      assert moved[i] == all[i'] && moved[j] == all[j'];
    }
  }

  lemma {:induction false} RunClean(env: Env, st: LoadState)
    requires Clean(env, st) && Run(env, st).Ok?
    ensures Clean(env, Run(env, st).value)
    decreases MAX_HIERARCHY_TOTAL_BYTES - st.totalBytes
  {
    hide Clean, Step;
    if st.work.pending != [] {
      StepClean(env, st);
      RunClean(env, Step(env, st).value);
    }
  }

  lemma NoBytes()
    ensures SeqBytes([]) == 0
  {
  }

  /** An eager load that ends Ok read each page once, within the budget. */
  lemma LoadAllReadable(env: Env, root: ByteRange)
    requires LoadAll(env, root).Ok?
    ensures Readable(env, LoadAll(env, root).value.fetched)
  {
    hide LoadRange, Run, SeqBytes, PageSized;
    var start := InitialState(root);
    NoBytes();
    assert start.fetched + [root] + start.work.pending == [root];
    RangeClean(env, start, root);
    RunClean(env, LoadRange(env, start, root).value);
    var st := LoadAll(env, root).value;
    assert NoRepeat((st.fetched + st.work.pending)[..|st.fetched|]);
    assert (st.fetched + st.work.pending)[..|st.fetched|] == st.fetched;
  }

  // Files that open ---------------------------------------------------------

  /** What the eager reader has checked of a file it opened. */
  ghost predicate Openable(src: Source, eager: Eager) {
    && EagerLoaded(src, eager) && Readable(src.env, eager.pages)
    && MapDisjoint(eager.hierarchy) && MapSum(eager.hierarchy, PointsOf) == src.numberOfPoints
  }

  /** A file the eager reader opens, seen as the source of a lazy reader. */
  lemma OpenedIsOpenable(input: CopcInput, src: Source)
    requires OpenHierarchy(input).Ok? && NewDataRanges(input).Ok?
    requires src.env == Env(input.bytes, NewDataRanges(input).value) && src.numberOfPoints == input.numberOfPoints
    ensures LoadAll(src.env, Root(input)).Ok?
    ensures var loaded := LoadAll(src.env, Root(input)).value;
      Openable(src, Eager(Root(input), loaded.fetched, loaded.hierarchy))
  {
    hide LoadAll, MapSum, MapDisjoint, Complete, Readable, WholeAccepted, InSection;
    OpenIsSafe(input);
    LoadAllComplete(src.env, Root(input));
    LoadAllReadable(src.env, Root(input));
  }

  /** The entry on page `r` that replaces a child-page entry of its key. */
  ghost predicate Replaces(d: Entry, r: ByteRange, e: Entry) {
    d.Valid() && d.IsChildPage() && !e.IsChildPage() && RangeOf(d) == r
  }

  /**
   Pages form a tree over keys: a page lists a key once, two pages list the same key only as a child-page entry and
   the entry replacing it on the page it points at, and every page but the root is pointed at once.
   */
  ghost predicate Tidy(env: Env, root: ByteRange, pages: seq<ByteRange>) {
    && (forall r :: r in pages ==> PageAt(env, r).Ok? && DistinctEntryKeys(PageAt(env, r).value))
    && (forall p, r, d, e :: p in pages && r in pages && p != r && OnPage(env, p, d) && OnPage(env, r, e) && d.key == e.key ==>
          Replaces(d, r, e) || Replaces(e, p, d))
    && (forall p, r, c, d :: p in pages && r in pages && OnPage(env, p, c) && OnPage(env, r, d) && SameTarget(c, d) ==> p == r && c == d)
    && (forall p, c :: p in pages && OnPage(env, p, c) && c.Valid() && c.IsChildPage() ==> RangeOf(c) != root)
  }

  ghost predicate SameTarget(c: Entry, d: Entry) {
    c.Valid() && c.IsChildPage() && d.Valid() && d.IsChildPage() && RangeOf(c) == RangeOf(d)
  }

  ghost predicate HasPoints(env: Env, r: ByteRange) {
    exists e :: OnPage(env, r, e) && e.HasPointData()
  }

  /** Page `t` is `n` child-page entries below page `r`. */
  ghost predicate Reaches(env: Env, r: ByteRange, t: ByteRange, n: nat)
    decreases n
  {
    if n == 0 then r == t
    else exists q, c :: Reaches(env, r, q, n - 1) && OnPage(env, q, c) && c.Valid() && c.IsChildPage() && RangeOf(c) == t
  }

  /** The page or some page below it holds a point entry. */
  ghost predicate LeadsToPoints(env: Env, r: ByteRange) {
    exists t, n: nat :: Reaches(env, r, t, n) && HasPoints(env, t)
  }

  ghost predicate HasChild(env: Env, r: ByteRange) {
    exists e :: OnPage(env, r, e) && e.Valid() && e.IsChildPage()
  }

  // Point totals ------------------------------------------------------------

  /** Each key's points are at most those it has in `h`. */
  ghost predicate SumBelow(g: EntryMap, h: EntryMap) {
    forall k :: k in g && PointsOf(g[k]) > 0 ==> k in h && PointsOf(g[k]) <= PointsOf(h[k])
  }

  lemma {:induction false} SumBelowSums(g: EntryMap, h: EntryMap)
    requires SumBelow(g, h)
    ensures MapSum(g, PointsOf) <= MapSum(h, PointsOf)
    decreases |g|
  {
    if g != map[] {
      hide PointsOf;
      var k :| k in g;
      MapSumRemove(g, PointsOf, k);
      if k in h && PointsOf(g[k]) > 0 {
        MapSumRemove(h, PointsOf, k);
        SumBelowSums(g - {k}, h - {k});
      } else {
        SumBelowSums(g - {k}, h);
      }
    }
  }

  /** A key whose points are missing makes the total strictly smaller. */
  lemma SumStrictlyBelow(g: EntryMap, h: EntryMap, k: VoxelKey)
    requires SumBelow(g, h) && k in h && h[k].HasPointData() && (k in g ==> !g[k].HasPointData())
    ensures MapSum(g, PointsOf) < MapSum(h, PointsOf)
  {
    hide MapSum;
    MapSumRemove(h, PointsOf, k);
    if k in g {
      MapSumRemove(g, PointsOf, k);
      SumBelowSums(g - {k}, h - {k});
    } else {
      SumBelowSums(g, h - {k});
    }
  }

  /** Every entry of the map is stored on one of the pages. */
  ghost predicate FromPages(env: Env, pages: seq<ByteRange>, g: EntryMap) {
    forall k :: k in g ==> g[k].key == k && Listed(env, pages, g[k])
  }

  lemma FromPagesBelow(env: Env, pages: seq<ByteRange>, g: EntryMap, h: EntryMap)
    requires FromPages(env, pages, g) && Holds(env, pages, h)
    ensures SumBelow(g, h)
  {
    hide EntryAccepted, OnPage;
    forall k | k in g && PointsOf(g[k]) > 0 ensures k in h && PointsOf(g[k]) <= PointsOf(h[k]) {
      assert Listed(env, pages, g[k]);
      assert Stored(h, g[k]);
    }
  }

  // Absorbing an unseen page of an openable file ----------------------------

  /** The hierarchy part of a page load in progress: the entries `done` of its page are in. */
  ghost predicate Halfway(src: Source, eager: Eager, st: LazyState, done: seq<Entry>, now: LazyState) {
    && Balanced(now)
    && FromPages(src.env, eager.pages, now.hierarchy)
    && (forall k :: k in now.hierarchy ==> (k in st.hierarchy && now.hierarchy[k] == st.hierarchy[k]) || now.hierarchy[k] in done)
  }

  /** An entry of an unseen page never clashes with what is loaded. */
  ghost predicate Unseen(h: EntryMap, entries: seq<Entry>) {
    forall e :: e in entries ==> Insertable(h, e)
  }

  lemma EntryAbsorbs(src: Source, eager: Eager, st: LazyState, r: ByteRange, done: seq<Entry>, now: LazyState, e: Entry)
    requires Openable(src, eager) && r in eager.pages && OnPage(src.env, r, e)
    requires Halfway(src, eager, st, done, now) && Insertable(st.hierarchy, e)
    requires forall d :: d in done ==> d.key != e.key
    ensures AbsorbEntry(src, now, e).ok
    ensures Halfway(src, eager, st, done + [e], AbsorbEntry(src, now, e).state)
  {
    hide MapSum, OnPage, Readable, Connected, EntryAccepted, MapDisjoint, InsertRange, RangesMatch, Sound;
    assert Holds(src.env, eager.pages, eager.hierarchy);
    assert Stored(eager.hierarchy, e) && EntryAccepted(src.env, e);
    assert Insertable(now.hierarchy, e);
    assert Listed(src.env, eager.pages, e);
    assert e in done + [e] && forall d :: d in done ==> d in done + [e];
    var grown := now.hierarchy[e.key := e];
    assert FromPages(src.env, eager.pages, grown);
    FromPagesBelow(src.env, eager.pages, grown, eager.hierarchy);
    SumBelowSums(grown, eager.hierarchy);
    InsertedSum(now.hierarchy, e);
    if e.HasPointData() {
      ChunkIsClear(src, eager, now, e);
    }
    EntryBalances(src, now, e);
  }

  lemma ChunkIsClear(src: Source, eager: Eager, now: LazyState, e: Entry)
    requires Openable(src, eager) && Balanced(now) && FromPages(src.env, eager.pages, now.hierarchy)
    requires e.HasPointData() && Stored(eager.hierarchy, e) && EntryAccepted(src.env, e) && Insertable(now.hierarchy, e)
    ensures InsertRange(now.ranges, e).Ok?
  {
    hide MapSum, OnPage, Readable, Connected, InsertRange;
    NeighbourCheckExact(now.ranges, e);
    forall s | s in now.ranges ensures now.ranges[s].0 <= e.offset || e.offset + e.byteSize <= s {
      assert RangeOfChunk(now.ranges, now.hierarchy, s);
      var g := now.hierarchy[now.ranges[s].1];
      assert Listed(src.env, eager.pages, g);
      assert Stored(eager.hierarchy, g);
      assert ChunksDisjoint(eager.hierarchy[g.key], eager.hierarchy[e.key]);
    }
  }

  lemma {:induction false} EntriesAbsorb(src: Source, eager: Eager, st: LazyState, r: ByteRange, now: LazyState, entries: seq<Entry>, n: nat)
    requires Openable(src, eager) && r in eager.pages && PageAt(src.env, r) == Ok(entries) && DistinctEntryKeys(entries)
    requires Halfway(src, eager, st, [], now) && Unseen(st.hierarchy, entries) && n <= |entries|
    ensures AbsorbEntries(src, now, entries[..n]).ok
    ensures Halfway(src, eager, st, entries[..n], AbsorbEntries(src, now, entries[..n]).state)
  {
    hide Openable, AbsorbEntry, Halfway, Insertable;
    if n > 0 {
      assert entries[..n][..n - 1] == entries[..n - 1];
      assert entries[..n - 1] + [entries[n - 1]] == entries[..n];
      EntriesAbsorb(src, eager, st, r, now, entries, n - 1);
      assert OnPage(src.env, r, entries[n - 1]);
      EntryAbsorbs(src, eager, st, r, entries[..n - 1], AbsorbEntries(src, now, entries[..n - 1]).state, entries[n - 1]);
    } else {
      assert entries[..0] == [];
    }
  }
}
