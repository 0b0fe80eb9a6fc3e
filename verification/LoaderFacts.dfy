/** What the eager loader guarantees on arbitrary bytes. */
module LoaderFacts {
  import opened Core
  import opened Voxel
  import opened Codec
  import opened Hierarchy
  import opened ChunkRanges
  import opened Loader

  // The read bound ----------------------------------------------------------

  /** The state after `n` turns of the worklist that all succeeded. */
  ghost function Steps(env: Env, st: LoadState, n: nat): Result<LoadState> {
    if n == 0 then Ok(st)
    else
      var before :- Steps(env, st, n - 1);
      if before.work.pending == [] then Err(InvalidInput) else Step(env, before)
  }

  /**
   Whatever the bytes say, the worklist cannot take more than 2^23 turns: every page costs at least
   32 bytes of the 2^28-byte budget.
   */
  lemma {:induction false} ReadsAreBounded(env: Env, st: LoadState, n: nat)
    requires Steps(env, st, n).Ok? && st.totalBytes <= MAX_HIERARCHY_TOTAL_BYTES
    ensures st.totalBytes + HIERARCHY_ENTRY_BYTES * n <= Steps(env, st, n).value.totalBytes <= MAX_HIERARCHY_TOTAL_BYTES
    ensures n <= 0x80_0000
  {
    hide Step;
    if n > 0 {
      ReadsAreBounded(env, st, n - 1);
    }
  }

  // One page ----------------------------------------------------------------

  /** A page's entry is in the hierarchy, or was a child-page entry since replaced at its key. */
  ghost predicate Stored(h: EntryMap, e: Entry) {
    e.key in h && (h[e.key] == e || (e.IsChildPage() && !h[e.key].IsChildPage()))
  }

  /** How inserting a page's entries changes the hierarchy. */
  ghost predicate Inserted(env: Env, h: EntryMap, entries: seq<Entry>, h': EntryMap) {
    && (forall e :: e in entries ==> Stored(h', e) && EntryAccepted(env, e))
    && (forall k :: k in h ==> k in h' && (h'[k] == h[k] || (h[k].IsChildPage() && !h'[k].IsChildPage())))
    && (forall k :: k in h' ==> (k in h && h'[k] == h[k]) || (h'[k] in entries && h'[k].key == k))
  }

  lemma {:induction false} InsertEntriesInserts(env: Env, h: EntryMap, entries: seq<Entry>)
    requires InsertEntries(env, h, entries).Ok?
    ensures Inserted(env, h, entries, InsertEntries(env, h, entries).value)
  {
    if entries != [] {
      hide EntryAccepted, Inserted;
      var n := |entries| - 1;
      InsertEntriesInserts(env, h, entries[..n]);
      InsertedOneMore(env, h, entries[..n], InsertEntries(env, h, entries[..n]).value, entries[n]);
      assert entries == entries[..n] + [entries[n]];
    }
  }

  lemma InsertedOneMore(env: Env, h: EntryMap, entries: seq<Entry>, h': EntryMap, e: Entry)
    requires Inserted(env, h, entries, h') && EntryAccepted(env, e) && Insertable(h', e)
    ensures Inserted(env, h, entries + [e], h'[e.key := e])
  {
    hide EntryAccepted;
    assert forall d :: d in entries + [e] <==> d in entries || d == e;
  }

  ghost predicate Pushed(w: Worklist, entries: seq<Entry>, w': Worklist)
    requires forall e :: e in entries ==> e.Valid()
  {
    && w.visited <= w'.visited
    && w.pending <= w'.pending
    && (forall e :: e in entries && e.IsChildPage() ==> RangeOf(e) in w'.visited)
    && (forall r :: r in w'.visited ==> r in w.visited || r in w'.pending)
    && (forall r :: r in w'.pending ==> r in w.pending || FromChild(entries, r))
  }

  ghost predicate FromChild(entries: seq<Entry>, r: ByteRange) {
    exists e :: e in entries && e.Valid() && e.IsChildPage() && RangeOf(e) == r
  }

  lemma {:induction false} PushChildrenPushes(w: Worklist, entries: seq<Entry>)
    requires forall e :: e in entries ==> e.Valid()
    ensures Pushed(w, entries, PushChildren(w, entries))
  {
    if entries != [] {
      hide Entry.Valid;
      var n := |entries| - 1;
      PushChildrenPushes(w, entries[..n]);
      var w', w'' := PushChildren(w, entries[..n]), PushChildren(w, entries);
      forall r | r in w''.pending ensures r in w.pending || FromChild(entries, r) {
        if r in w'.pending && r !in w.pending {
          var e :| e in entries[..n] && e.Valid() && e.IsChildPage() && RangeOf(e) == r;
          assert e in entries;
        } else if r !in w'.pending {
          assert entries[n] in entries;
        }
      }
    }
  }

  // The whole load ----------------------------------------------------------

  /** Entry `e` is stored on the page at range `r`. */
  ghost predicate OnPage(env: Env, r: ByteRange, e: Entry) {
    PageAt(env, r).Ok? && e in PageAt(env, r).value
  }

  /** A page fetched before position `i` points at range `r`. */
  ghost predicate PointedAt(env: Env, fetched: seq<ByteRange>, i: nat, r: ByteRange) {
    exists j, c :: 0 <= j < i && j < |fetched| && OnPage(env, fetched[j], c) && c.Valid() && c.IsChildPage() && RangeOf(c) == r
  }

  /** Every fetched page parses, and all but the first were reached from an earlier page. */
  ghost predicate Connected(env: Env, root: ByteRange, fetched: seq<ByteRange>) {
    && (fetched != [] ==> fetched[0] == root)
    && (forall i :: 0 <= i < |fetched| ==> PageAt(env, fetched[i]).Ok?)
    && (forall i :: 1 <= i < |fetched| ==> PointedAt(env, fetched, i, fetched[i]))
  }

  /** The hierarchy holds what the fetched pages hold, and nothing else. */
  ghost predicate Holds(env: Env, fetched: seq<ByteRange>, h: EntryMap) {
    && Keyed(h)
    && (forall k :: k in h ==> EntryAccepted(env, h[k]))
    && (forall r, e :: r in fetched && OnPage(env, r, e) ==> Stored(h, e) && EntryAccepted(env, e))
    && (forall k :: k in h ==> exists r :: r in fetched && OnPage(env, r, h[k]))
  }

  /** Every page a fetched page points at is fetched or waiting. */
  ghost predicate Queued(env: Env, fetched: seq<ByteRange>, w: Worklist) {
    && (forall r :: r in w.visited ==> r in fetched || r in w.pending)
    && (forall r :: r in w.pending ==> PointedAt(env, fetched, |fetched|, r))
    && (forall r, e :: r in fetched && OnPage(env, r, e) && e.Valid() && e.IsChildPage() ==> RangeOf(e) in w.visited)
  }

  ghost predicate LoadInvariant(env: Env, root: ByteRange, st: LoadState) {
    && Connected(env, root, st.fetched)
    && Holds(env, st.fetched, st.hierarchy)
    && Queued(env, st.fetched, st.work)
  }

  lemma PointedAtGrows(env: Env, fetched: seq<ByteRange>, i: nat, more: seq<ByteRange>, j: nat, r: ByteRange)
    requires PointedAt(env, fetched, i, r) && fetched <= more && i <= j
    ensures PointedAt(env, more, j, r)
  {
    var k, c :| 0 <= k < i && k < |fetched| && OnPage(env, fetched[k], c) && c.Valid() && c.IsChildPage() && RangeOf(c) == r;
    assert more[k] == fetched[k];
  }

  lemma LoadConnected(env: Env, root: ByteRange, fetched: seq<ByteRange>, r: ByteRange)
    requires Connected(env, root, fetched) && PageAt(env, r).Ok?
    requires if fetched == [] then r == root else PointedAt(env, fetched, |fetched|, r)
    ensures Connected(env, root, fetched + [r])
  {
    hide PointedAt;
    var more := fetched + [r];
    forall i | 1 <= i < |more| ensures PointedAt(env, more, i, more[i]) {
      if i < |fetched| {
        PointedAtGrows(env, fetched, i, more, i, fetched[i]);
      } else {
        PointedAtGrows(env, fetched, |fetched|, more, i, r);
      }
    }
  }

  lemma LoadHolds(env: Env, fetched: seq<ByteRange>, h: EntryMap, r: ByteRange, entries: seq<Entry>, h': EntryMap)
    requires Holds(env, fetched, h) && PageAt(env, r) == Ok(entries) && Inserted(env, h, entries, h')
    ensures Holds(env, fetched + [r], h')
  {
    hide EntryAccepted;
    var more := fetched + [r];
    forall k | k in h' ensures exists q :: q in more && OnPage(env, q, h'[k]) {
      if k in h && h'[k] == h[k] {
        var q :| q in fetched && OnPage(env, q, h[k]);
        assert q in more;
      } else {
        assert r in more && OnPage(env, r, h'[k]);
      }
    }
  }

  lemma LoadQueued(env: Env, fetched: seq<ByteRange>, w: Worklist, r: ByteRange, entries: seq<Entry>, w': Worklist)
    requires PageAt(env, r) == Ok(entries) && Pushed(w, entries, w')
    requires forall q :: q in w.visited ==> q in fetched || q in w.pending || q == r
    requires forall q :: q in w.pending ==> PointedAt(env, fetched, |fetched|, q)
    requires forall q, e :: q in fetched && OnPage(env, q, e) && e.Valid() && e.IsChildPage() ==> RangeOf(e) in w.visited
    ensures Queued(env, fetched + [r], w')
  {
    hide Entry.Valid;
    var more := fetched + [r];
    forall q | q in w'.pending ensures PointedAt(env, more, |more|, q) {
      if q in w.pending {
        PointedAtGrows(env, fetched, |fetched|, more, |more|, q);
      } else {
        var c :| c in entries && c.Valid() && c.IsChildPage() && RangeOf(c) == q;
        assert more[|fetched|] == r && OnPage(env, more[|fetched|], c);
      }
    }
  }

  lemma LoadRangeKeeps(env: Env, root: ByteRange, st: LoadState, r: ByteRange)
    requires Connected(env, root, st.fetched) && Holds(env, st.fetched, st.hierarchy)
    requires if st.fetched == [] then r == root else PointedAt(env, st.fetched, |st.fetched|, r)
    requires forall q :: q in st.work.visited ==> q in st.fetched || q in st.work.pending || q == r
    requires forall q :: q in st.work.pending ==> PointedAt(env, st.fetched, |st.fetched|, q)
    requires forall q, e :: q in st.fetched && OnPage(env, q, e) && e.Valid() && e.IsChildPage() ==> RangeOf(e) in st.work.visited
    requires LoadRange(env, st, r).Ok?
    ensures LoadInvariant(env, root, LoadRange(env, st, r).value)
  {
    hide InsertEntries, PushChildren, Connected, Holds, Queued, PointedAt, Inserted, Pushed, OnPage, Entry.Valid, PageAt;
    var page := ReadPage(env, r, st.totalBytes).value;
    InsertEntriesInserts(env, st.hierarchy, page.0);
    PushChildrenPushes(st.work, page.0);
    var next := LoadRange(env, st, r).value;
    LoadConnected(env, root, st.fetched, r);
    LoadHolds(env, st.fetched, st.hierarchy, r, page.0, next.hierarchy);
    LoadQueued(env, st.fetched, st.work, r, page.0, next.work);
  }

  lemma StepKeeps(env: Env, root: ByteRange, st: LoadState)
    requires LoadInvariant(env, root, st) && st.fetched != [] && st.work.pending != [] && Step(env, st).Ok?
    ensures LoadInvariant(env, root, Step(env, st).value) && Step(env, st).value.fetched != []
  {
    hide Connected, Holds, PointedAt, OnPage, LoadRange;
    var n := |st.work.pending| - 1;
    var r := st.work.pending[n];
    var popped := st.(work := st.work.(pending := st.work.pending[..n]));
    assert r in st.work.pending;
    assert forall q :: q in st.work.pending ==> q in st.work.pending[..n] || q == r;
    assert forall q :: q in st.work.pending[..n] ==> q in st.work.pending;
    LoadRangeKeeps(env, root, popped, r);
  }

  lemma {:induction false} RunKeeps(env: Env, root: ByteRange, st: LoadState)
    requires LoadInvariant(env, root, st) && st.fetched != [] && Run(env, st).Ok?
    ensures LoadInvariant(env, root, Run(env, st).value)
    ensures Run(env, st).value.work.pending == [] && Run(env, st).value.fetched != []
    decreases MAX_HIERARCHY_TOTAL_BYTES - st.totalBytes
  {
    hide LoadInvariant, Step;
    if st.work.pending != [] {
      StepKeeps(env, root, st);
      RunKeeps(env, root, Step(env, st).value);
    }
  }

  /** A finished load: the pages reachable from the root, and exactly what they hold. */
  ghost predicate Complete(env: Env, root: ByteRange, fetched: seq<ByteRange>, h: EntryMap) {
    && fetched != []
    && Connected(env, root, fetched)
    && Holds(env, fetched, h)
    && (forall r, e :: r in fetched && OnPage(env, r, e) && e.Valid() && e.IsChildPage() ==> RangeOf(e) in fetched)
  }

  lemma LoadAllComplete(env: Env, root: ByteRange)
    requires LoadAll(env, root).Ok?
    ensures Complete(env, root, LoadAll(env, root).value.fetched, LoadAll(env, root).value.hierarchy)
  {
    hide Connected, Holds, LoadRange, Run, PointedAt;
    var start := InitialState(root);
    assert Connected(env, root, []) && Holds(env, [], map[]) by {
      NothingLoaded(env, root);
    }
    LoadRangeKeeps(env, root, start, root);
    RunKeeps(env, root, LoadRange(env, start, root).value);
  }

  lemma NothingLoaded(env: Env, root: ByteRange)
    ensures Connected(env, root, []) && Holds(env, [], map[])
  {
  }

  /**
   A hierarchy that opens is safe to read: point chunks are pairwise disjoint and inside the point-data
   section, take no more bytes than it has, and count exactly the points the header declares.
   */
  lemma OpenIsSafe(input: CopcInput)
    requires OpenHierarchy(input).Ok?
    ensures var h := OpenHierarchy(input).value.hierarchy;
      && Keyed(h)
      && MapDisjoint(h)
      && InSection(h, input.offsetToPointData, input.offsetToFirstEvlr)
      && MapSum(h, BytesOf) <= input.offsetToFirstEvlr - input.offsetToPointData
      && MapSum(h, PointsOf) == input.numberOfPoints
  {
    hide LoadAll, InsertRanges, SortedValues, Lists, MapDisjoint, AllDisjoint, EntriesPoints, MapSum, HoldsExactly, Sound;
    var ranges := NewDataRanges(input).value;
    var env, root := Env(input.bytes, ranges), Root(input);
    LoadAllComplete(env, root);
    var h := OpenHierarchy(input).value.hierarchy;
    SortedLists(h);
    ListSum(SortedValues(h), h);
    AcceptedSized(env, h);
    InsertRangesExact(SortedValues(h));
    ListDisjoint(SortedValues(h), h);
    ChunksFitSection(h, ranges.pointStart, ranges.pointEnd);
  }

  lemma AcceptedSized(env: Env, h: EntryMap)
    requires Keyed(h) && forall k :: k in h ==> EntryAccepted(env, h[k])
    ensures forall i :: 0 <= i < |SortedValues(h)| ==> ChunkSized(SortedValues(h)[i])
    ensures InSection(h, env.ranges.pointStart, env.ranges.pointEnd)
  {
    hide SortedValues;
    SortedValuesAre(h);
    var values := SortedValues(h);
    forall i | 0 <= i < |values| ensures ChunkSized(values[i]) {
      assert EntryAccepted(env, h[values[i].key]);
    }
  }
}
