/** Fetching nearby chunks with one read (copc-reader/src/ranged.rs). */
module Coalesce {
  import opened Core
  import opened Voxel
  import opened Codec
  import opened Hierarchy
  import opened ChunkRanges
  import opened Loader
  import opened Selection

  datatype ChunkGroup = ChunkGroup(start: uint64, end: uint64, entries: seq<Entry>)

  function ChunkEnd(e: Entry): nat {
    e.offset + (if e.byteSize > 0 then e.byteSize else 0)
  }

  /** Chunk ends fit the source's 64-bit offsets. */
  predicate Ranged(chunks: seq<Entry>) {
    forall i :: 0 <= i < |chunks| ==> ChunkEnd(chunks[i]) <= UINT64_MAX
  }

  function SaturatingAdd(a: uint64, b: uint64): uint64 {
    if a + b > UINT64_MAX then UINT64_MAX else a + b
  }

  /** A chunk may join a group: it starts near the group's end and the group stays within the byte cap. */
  predicate Joins(g: ChunkGroup, e: Entry, gap: uint64, cap: uint64) {
    e.offset <= SaturatingAdd(g.end, gap) && Max(ChunkEnd(e) - g.start, 0) <= cap
  }

  /** The groups after one more chunk. */
  function Extended(groups: seq<ChunkGroup>, e: Entry, gap: uint64, cap: uint64): seq<ChunkGroup>
    requires ChunkEnd(e) <= UINT64_MAX
  {
    var n := |groups| - 1;
    if groups != [] && Joins(groups[n], e, gap, cap) then
      groups[..n] + [ChunkGroup(groups[n].start, Max(groups[n].end, ChunkEnd(e)), groups[n].entries + [e])]
    else groups + [ChunkGroup(e.offset, ChunkEnd(e), [e])]
  }

  function Coalesced(chunks: seq<Entry>, gap: uint64, cap: uint64): seq<ChunkGroup>
    requires Ranged(chunks)
  {
    if chunks == [] then [] else Extended(Coalesced(chunks[..|chunks| - 1], gap, cap), chunks[|chunks| - 1], gap, cap)
  }

  method CoalesceChunks(chunks: seq<Entry>, gap: uint64, cap: uint64) returns (groups: seq<ChunkGroup>)
    requires Ranged(chunks)
    ensures groups == Coalesced(chunks, gap, cap)
  {
    hide Coalesced;
    groups := [];
    assert chunks[..0] == [];
    CoalescedUnfolds([], gap, cap);
    for i := 0 to |chunks|
      invariant groups == Coalesced(chunks[..i], gap, cap)
    {
      assert chunks[..i + 1][..i] == chunks[..i];
      CoalescedUnfolds(chunks[..i + 1], gap, cap);
      var entry := chunks[i];
      var start, end: uint64 := entry.offset, ChunkEnd(entry);
      var last := |groups| - 1;
      if groups != [] && start <= SaturatingAdd(groups[last].end, gap) && Max(end - groups[last].start, 0) <= cap {
        groups := groups[..last] + [ChunkGroup(groups[last].start, Max(groups[last].end, end), groups[last].entries + [entry])];
      } else {
        groups := groups + [ChunkGroup(start, end, [entry])];
      }
    }
    assert chunks[..|chunks|] == chunks;
  }

  lemma CoalescedUnfolds(chunks: seq<Entry>, gap: uint64, cap: uint64)
    requires Ranged(chunks)
    ensures chunks == [] ==> Coalesced(chunks, gap, cap) == []
    ensures chunks != [] ==> var n := |chunks| - 1;
      Coalesced(chunks, gap, cap) == Extended(Coalesced(chunks[..n], gap, cap), chunks[n], gap, cap)
  {
  }

  /** Either the chunk joins the last group, whose start stays, or it opens a group of its own. */
  lemma ExtendedShape(groups: seq<ChunkGroup>, e: Entry, gap: uint64, cap: uint64)
    requires ChunkEnd(e) <= UINT64_MAX
    ensures var more := Extended(groups, e, gap, cap); var n := |groups| - 1;
      if groups != [] && Joins(groups[n], e, gap, cap) then
        |more| == |groups| && more[n].start == groups[n].start && more[n].end == Max(groups[n].end, ChunkEnd(e))
      else
        |more| == |groups| + 1 && more[n + 1].start == e.offset && more[n + 1].end == ChunkEnd(e)
  {
  }

  /** No group could have taken the next group's first chunk: it starts past the gap or ends past the cap. */
  ghost predicate Greedy(groups: seq<ChunkGroup>, gap: nat, cap: nat) {
    && (forall i :: 0 <= i < |groups| ==> groups[i].entries != [])
    && forall i :: 0 <= i < |groups| - 1 ==>
         groups[i + 1].entries[0].offset > groups[i].end + gap || ChunkEnd(groups[i + 1].entries[0]) > groups[i].start + cap
  }

  lemma ExtendedGreedy(groups: seq<ChunkGroup>, e: Entry, gap: uint64, cap: uint64)
    requires ChunkEnd(e) <= UINT64_MAX && Greedy(groups, gap, cap)
    ensures Greedy(Extended(groups, e, gap, cap), gap, cap)
  {
    var more := Extended(groups, e, gap, cap);
    forall i | 0 <= i < |more| - 1
      ensures more[i + 1].entries[0].offset > more[i].end + gap || ChunkEnd(more[i + 1].entries[0]) > more[i].start + cap
    {
      if i < |groups| - 1 {
        assert more[i] == groups[i] && more[i + 1].entries[0] == groups[i + 1].entries[0];
      }
    }
  }

  /** Groups are as long as the rules let them be. */
  lemma {:induction false} CoalescedIsGreedy(chunks: seq<Entry>, gap: uint64, cap: uint64)
    requires Ranged(chunks)
    ensures Greedy(Coalesced(chunks, gap, cap), gap, cap)
  {
    hide Extended, Greedy, ChunkEnd, Coalesced;
    CoalescedUnfolds(chunks, gap, cap);
    if chunks == [] {
      NoGroups(gap, cap);
    } else {
      var n := |chunks| - 1;
      CoalescedIsGreedy(chunks[..n], gap, cap);
      ExtendedGreedy(Coalesced(chunks[..n], gap, cap), chunks[n], gap, cap);
    }
  }

  lemma NoGroups(gap: nat, cap: nat)
    ensures Greedy([], gap, cap)
  {
  }

  // What grouping keeps -----------------------------------------------------

  /** Sized chunks one after another in the file, as selection returns them. */
  ghost predicate InOrder(chunks: seq<Entry>) {
    && (forall i :: 0 <= i < |chunks| ==> chunks[i].byteSize > 0)
    && (forall i, j :: 0 <= i < j < |chunks| ==> ChunkEnd(chunks[i]) <= chunks[j].offset)
  }

  /** Neighbours are at most `gap` bytes apart. */
  ghost predicate Linked(s: seq<Entry>, gap: nat) {
    forall i :: 0 <= i < |s| - 1 ==> s[i + 1].offset <= ChunkEnd(s[i]) + gap
  }

  /** A group the rules allow: near neighbours, and within the cap unless it is a single chunk. */
  ghost predicate Allowed(s: seq<Entry>, gap: nat, cap: nat) {
    && s != [] && Linked(s, gap)
    && (|s| == 1 || ChunkEnd(s[|s| - 1]) - s[0].offset <= cap)
  }

  /** The group covers exactly the span of its chunks and obeys the rules. */
  ghost predicate GoodGroup(g: ChunkGroup, gap: nat, cap: nat) {
    && Allowed(g.entries, gap, cap)
    && g.start == g.entries[0].offset && g.end == ChunkEnd(g.entries[|g.entries| - 1])
  }

  function Flatten(groups: seq<ChunkGroup>): seq<Entry> {
    if groups == [] then [] else Flatten(groups[..|groups| - 1]) + groups[|groups| - 1].entries
  }

  lemma ExtendedFlattens(groups: seq<ChunkGroup>, e: Entry, gap: uint64, cap: uint64)
    requires ChunkEnd(e) <= UINT64_MAX
    ensures Flatten(Extended(groups, e, gap, cap)) == Flatten(groups) + [e]
  {
    var n := |groups| - 1;
    var more := Extended(groups, e, gap, cap);
    assert more[..|more| - 1] == if groups != [] && Joins(groups[n], e, gap, cap) then groups[..n] else groups;
  }

  lemma ExtendedGood(groups: seq<ChunkGroup>, last: Entry, e: Entry, gap: uint64, cap: uint64)
    requires groups != [] && (forall i :: 0 <= i < |groups| ==> GoodGroup(groups[i], gap, cap))
    requires ChunkEnd(e) <= UINT64_MAX && e.byteSize > 0 && groups[|groups| - 1].end == ChunkEnd(last) <= e.offset
    ensures forall i :: 0 <= i < |Extended(groups, e, gap, cap)| ==> GoodGroup(Extended(groups, e, gap, cap)[i], gap, cap)
  {
    var n := |groups| - 1;
    var more := Extended(groups, e, gap, cap);
    if Joins(groups[n], e, gap, cap) {
      var s := groups[n].entries;
      assert GoodGroup(groups[n], gap, cap);
      assert more[n].entries == s + [e];
      forall i | 0 <= i < |s + [e]| - 1 ensures (s + [e])[i + 1].offset <= ChunkEnd((s + [e])[i]) + gap {
      }
      assert GoodGroup(more[n], gap, cap);
    } else {
      assert GoodGroup(more[n + 1], gap, cap);
    }
  }

  /** Groups concatenate to the chunks, span them exactly, and pass the cap only when holding a single chunk. */
  lemma {:induction false} CoalescedIsGrouping(chunks: seq<Entry>, gap: uint64, cap: uint64)
    requires Ranged(chunks) && InOrder(chunks)
    ensures var groups := Coalesced(chunks, gap, cap);
      && Flatten(groups) == chunks
      && (forall i :: 0 <= i < |groups| ==> GoodGroup(groups[i], gap, cap))
      && (chunks != [] ==> groups != [] && groups[|groups| - 1].end == ChunkEnd(chunks[|chunks| - 1]))
  {
    hide Joins, GoodGroup, Coalesced, Extended, Flatten, ChunkEnd, Max;
    CoalescedUnfolds(chunks, gap, cap);
    FlattenNothing();
    if chunks != [] {
      var n := |chunks| - 1;
      var before := Coalesced(chunks[..n], gap, cap);
      SizedEnds(chunks, n);
      CoalescedIsGrouping(chunks[..n], gap, cap);
      ExtendedFlattens(before, chunks[n], gap, cap);
      assert chunks == chunks[..n] + [chunks[n]];
      ExtendedShape(before, chunks[n], gap, cap);
      if n == 0 {
        CoalescedUnfolds([], gap, cap);
        FirstGroup(chunks[0], gap, cap);
      } else {
        ExtendedGood(before, chunks[n - 1], chunks[n], gap, cap);
      }
      MaxOfEnds(if n == 0 then 0 else ChunkEnd(chunks[n - 1]), chunks[n]);
    }
  }

  lemma SizedEnds(chunks: seq<Entry>, n: nat)
    requires Ranged(chunks) && InOrder(chunks) && n < |chunks|
    ensures chunks[n].byteSize > 0 && ChunkEnd(chunks[n]) <= UINT64_MAX
    ensures n > 0 ==> ChunkEnd(chunks[n - 1]) <= chunks[n].offset
    ensures Ranged(chunks[..n]) && InOrder(chunks[..n])
  {
  }

  lemma MaxOfEnds(end: nat, e: Entry)
    ensures end <= e.offset ==> Max(end, ChunkEnd(e)) == ChunkEnd(e)
  {
  }

  lemma FirstGroup(e: Entry, gap: uint64, cap: uint64)
    requires ChunkEnd(e) <= UINT64_MAX
    ensures forall i :: 0 <= i < |Extended([], e, gap, cap)| ==> GoodGroup(Extended([], e, gap, cap)[i], gap, cap)
  {
  }

  // Waste -------------------------------------------------------------------

  function Fetched(groups: seq<ChunkGroup>): int {
    if groups == [] then 0 else Fetched(groups[..|groups| - 1]) + (groups[|groups| - 1].end - groups[|groups| - 1].start)
  }

  function Wanted(chunks: seq<Entry>): int {
    if chunks == [] then 0 else Wanted(chunks[..|chunks| - 1]) + (ChunkEnd(chunks[|chunks| - 1]) - chunks[|chunks| - 1].offset)
  }

  /** How one more chunk changes the bytes fetched and the number of groups. */
  lemma ExtendedFetches(groups: seq<ChunkGroup>, e: Entry, gap: uint64, cap: uint64)
    requires ChunkEnd(e) <= UINT64_MAX && (groups != [] ==> groups[|groups| - 1].end <= e.offset)
    ensures var more := Extended(groups, e, gap, cap);
      || (|more| == |groups| && Fetched(more) <= Fetched(groups) + (ChunkEnd(e) - e.offset) + gap)
      || (|more| == |groups| + 1 && Fetched(more) == Fetched(groups) + (ChunkEnd(e) - e.offset))
  {
    var n := |groups| - 1;
    var more := Extended(groups, e, gap, cap);
    assert more[..|more| - 1] == if groups != [] && Joins(groups[n], e, gap, cap) then groups[..n] else groups;
  }

  /** Bytes fetched but not wanted: at most one gap for every chunk that shares a group. */
  lemma {:induction false} WasteIsBounded(chunks: seq<Entry>, gap: uint64, cap: uint64)
    requires Ranged(chunks) && InOrder(chunks)
    ensures var groups := Coalesced(chunks, gap, cap);
      |groups| <= |chunks| && Fetched(groups) - Wanted(chunks) <= gap * (|chunks| - |groups|)
  {
    hide Extended, Coalesced, Fetched, Wanted, ChunkEnd, GoodGroup, Flatten;
    CoalescedUnfolds(chunks, gap, cap);
    FetchesUnfold([], chunks);
    if chunks != [] {
      var n := |chunks| - 1;
      var before, after := Coalesced(chunks[..n], gap, cap), Coalesced(chunks, gap, cap);
      SizedEnds(chunks, n);
      WasteIsBounded(chunks[..n], gap, cap);
      CoalescedIsGrouping(chunks[..n], gap, cap);
      CoalescedUnfolds(chunks[..n], gap, cap);
      ExtendedFetches(before, chunks[n], gap, cap);
      assert |after| == |before| ==> gap * (|chunks| - |after|) == gap * (n - |before|) + gap;
    }
  }

  lemma FetchesUnfold(groups: seq<ChunkGroup>, chunks: seq<Entry>)
    ensures groups == [] ==> Fetched(groups) == 0
    ensures chunks == [] ==> Wanted(chunks) == 0
    ensures chunks != [] ==> var n := |chunks| - 1; Wanted(chunks) == Wanted(chunks[..n]) + (ChunkEnd(chunks[n]) - chunks[n].offset)
  {
  }

  // Optimality --------------------------------------------------------------

  /** An order-preserving grouping of the chunks under the same rules. */
  ghost predicate Grouping(parts: seq<seq<Entry>>, chunks: seq<Entry>, gap: nat, cap: nat)
    decreases |parts|
  {
    if parts == [] then chunks == []
    else
      var last := parts[|parts| - 1];
      && Allowed(last, gap, cap) && |last| <= |chunks| && last == chunks[|chunks| - |last|..]
      && Grouping(parts[..|parts| - 1], chunks[..|chunks| - |last|], gap, cap)
  }

  /** While the greedy groups pass over chunks that one group could hold, at most one group is opened. */
  lemma {:induction false} OneGroupOpened(chunks: seq<Entry>, k: nat, m: nat, gap: uint64, cap: uint64)
    requires Ranged(chunks) && InOrder(chunks) && k <= m <= |chunks| && k < |chunks| && Allowed(chunks[k..], gap, cap)
    ensures var before, now := Coalesced(chunks[..k], gap, cap), Coalesced(chunks[..m], gap, cap);
      && |now| <= |before| + 1
      && (|now| == |before| + 1 ==> now[|now| - 1].start >= chunks[k].offset)
    decreases m
  {
    hide Allowed, GoodGroup, Coalesced, Extended, Joins, InOrder, Flatten, ChunkEnd;
    if m > k {
      SizedEnds(chunks, m - 1);
      OneGroupOpened(chunks, k, m - 1, gap, cap);
      var shorter := chunks[..m];
      assert shorter[..m - 1] == chunks[..m - 1] && shorter[m - 1] == chunks[m - 1];
      CoalescedUnfolds(shorter, gap, cap);
      CoalescedIsGrouping(chunks[..m - 1], gap, cap);
      var before, last := Coalesced(chunks[..k], gap, cap), Coalesced(chunks[..m - 1], gap, cap);
      ExtendedShape(last, chunks[m - 1], gap, cap);
      OffsetsAscend(chunks, k, m - 1);
      if |last| == |before| + 1 {
        NextJoins(chunks, k, m, last[|last| - 1], gap, cap);
      }
    }
  }

  lemma OffsetsAscend(chunks: seq<Entry>, i: nat, j: nat)
    requires InOrder(chunks) && i <= j < |chunks|
    ensures chunks[i].offset <= chunks[j].offset
  {
  }

  lemma NextJoins(chunks: seq<Entry>, k: nat, m: nat, g: ChunkGroup, gap: uint64, cap: uint64)
    requires Ranged(chunks) && InOrder(chunks) && k + 1 < m <= |chunks| && Allowed(chunks[k..], gap, cap)
    requires g.start >= chunks[k].offset && g.end == ChunkEnd(chunks[m - 2])
    ensures Joins(g, chunks[m - 1], gap, cap)
  {
    var s := chunks[k..];
    assert s[m - 2 - k] == chunks[m - 2] && s[m - 1 - k] == chunks[m - 1];
    assert s[m - 2 - k + 1].offset <= ChunkEnd(s[m - 2 - k]) + gap;
    assert s[|s| - 1] == chunks[|chunks| - 1];
    assert ChunkEnd(chunks[m - 1]) <= ChunkEnd(chunks[|chunks| - 1]);
  }

  /** No order-preserving grouping under the same gap and cap has fewer groups. */
  lemma {:induction false} CoalescedIsOptimal(parts: seq<seq<Entry>>, chunks: seq<Entry>, gap: uint64, cap: uint64)
    requires Ranged(chunks) && InOrder(chunks) && Grouping(parts, chunks, gap, cap)
    ensures |Coalesced(chunks, gap, cap)| <= |parts|
    decreases |parts|
  {
    hide Coalesced, Grouping, Allowed, InOrder, Ranged;
    GroupingUnfolds(parts, chunks, gap, cap);
    CoalescedUnfolds(chunks, gap, cap);
    if parts != [] {
      var k := |chunks| - |parts[|parts| - 1]|;
      PrefixInOrder(chunks, k);
      CoalescedIsOptimal(parts[..|parts| - 1], chunks[..k], gap, cap);
      OneGroupOpened(chunks, k, |chunks|, gap, cap);
      assert chunks[..|chunks|] == chunks;
    }
  }

  lemma GroupingUnfolds(parts: seq<seq<Entry>>, chunks: seq<Entry>, gap: nat, cap: nat)
    requires Grouping(parts, chunks, gap, cap)
    ensures parts == [] ==> chunks == []
    ensures parts != [] ==> var k := |chunks| - |parts[|parts| - 1]|;
      0 <= k < |chunks| && Allowed(chunks[k..], gap, cap) && Grouping(parts[..|parts| - 1], chunks[..k], gap, cap)
  {
    hide Linked;
  }

  lemma PrefixInOrder(chunks: seq<Entry>, k: nat)
    requires k <= |chunks| && Ranged(chunks) && InOrder(chunks)
    ensures Ranged(chunks[..k]) && InOrder(chunks[..k])
  {
  }

  /** The greedy groups are themselves such a grouping, so the bound is met. */
  lemma {:induction false} GroupsFormGrouping(groups: seq<ChunkGroup>, gap: nat, cap: nat)
    requires forall i :: 0 <= i < |groups| ==> GoodGroup(groups[i], gap, cap)
    ensures Grouping(seq(|groups|, i requires 0 <= i < |groups| => groups[i].entries), Flatten(groups), gap, cap)
    decreases |groups|
  {
    hide Allowed;
    if groups != [] {
      var n := |groups| - 1;
      var parts := seq(|groups|, i requires 0 <= i < |groups| => groups[i].entries);
      GroupsFormGrouping(groups[..n], gap, cap);
      assert parts[..n] == seq(n, i requires 0 <= i < n => groups[..n][i].entries);
      var all := Flatten(groups);
      assert all[..|all| - |groups[n].entries|] == Flatten(groups[..n]);
      assert all[|all| - |groups[n].entries|..] == groups[n].entries;
    }
  }

  // Reading -----------------------------------------------------------------

  /** `chunk_slice`: the bytes and the point count of one chunk of a fetched group. */
  function ChunkSlice(groupBytes: seq<byte>, groupStart: uint64, e: Entry): Result<(seq<byte>, nat)>
    requires groupStart <= e.offset
  {
    if e.pointCount < 0 then Err(InvalidData)
    else if e.byteSize < 0 then Err(InvalidData)
    else
      var offset := e.offset - groupStart;
      if offset + e.byteSize > |groupBytes| then Err(InvalidData)
      else Ok((groupBytes[offset..offset + e.byteSize], e.pointCount))
  }

  predicate ChunkReadable(file: seq<byte>, e: Entry) {
    e.pointCount >= 0 && e.byteSize >= 0 && e.offset + e.byteSize <= |file|
  }

  /** A read of exactly one chunk. */
  function DirectRead(file: seq<byte>, e: Entry): (seq<byte>, nat)
    requires ChunkReadable(file, e)
  {
    (file[e.offset..e.offset + e.byteSize], e.pointCount)
  }

  predicate Readable(file: seq<byte>, chunks: seq<Entry>) {
    forall i :: 0 <= i < |chunks| ==> ChunkReadable(file, chunks[i])
  }

  function DirectReads(file: seq<byte>, chunks: seq<Entry>): (r: seq<(seq<byte>, nat)>)
    requires Readable(file, chunks)
    ensures |r| == |chunks|
  {
    seq(|chunks|, i requires 0 <= i < |chunks| => DirectRead(file, chunks[i]))
  }

  /** A chunk cut out of a fetched group is what a direct read returns. */
  lemma SliceIsDirectRead(file: seq<byte>, start: uint64, end: uint64, e: Entry)
    requires start <= e.offset && ChunkEnd(e) <= end <= |file|
    ensures ChunkSlice(file[start..end], start, e).Ok? <==> ChunkReadable(file, e)
    ensures ChunkReadable(file, e) ==> ChunkSlice(file[start..end], start, e) == Ok(DirectRead(file, e))
  {
    if ChunkReadable(file, e) {
      var lo := e.offset - start;
      SliceOfSlice(file, start, end, lo, lo + e.byteSize);
    }
  }

  lemma {:induction false} FlattenPrefix(groups: seq<ChunkGroup>, n: nat)
    requires n <= |groups|
    ensures Flatten(groups[..n]) <= Flatten(groups)
    decreases |groups|
  {
    if n < |groups| {
      FlattenPrefix(groups[..|groups| - 1], n);
      assert groups[..|groups| - 1][..n] == groups[..n];
    } else {
      assert groups[..n] == groups;
    }
  }

  lemma GroupSpansEntry(g: ChunkGroup, gap: nat, cap: nat, j: nat)
    requires GoodGroup(g, gap, cap) && j < |g.entries| && InOrder(g.entries)
    ensures g.start <= g.entries[j].offset && ChunkEnd(g.entries[j]) <= g.end
  {
    var n := |g.entries| - 1;
    assert j > 0 ==> ChunkEnd(g.entries[0]) <= g.entries[j].offset;
    assert j < n ==> ChunkEnd(g.entries[j]) <= g.entries[n].offset;
  }

  /** Where a group's chunks stand in the whole list. */
  lemma GroupEntries(groups: seq<ChunkGroup>, i: nat)
    requires i < |groups|
    ensures var at := |Flatten(groups[..i])|;
      && at + |groups[i].entries| <= |Flatten(groups)|
      && Flatten(groups)[..at] == Flatten(groups[..i])
      && Flatten(groups)[at..at + |groups[i].entries|] == groups[i].entries
      && Flatten(groups[..i + 1]) == Flatten(groups[..i]) + groups[i].entries
  {
    assert groups[..i + 1][..i] == groups[..i];
    FlattenPrefix(groups, i);
    FlattenPrefix(groups, i + 1);
  }

  /**
   The reading loop of `read_columns` and `read_points`: one fetch per group, one slice per chunk. It returns what one
   read per chunk would, and fails exactly when such a read would.
   */
  method ReadChunks(file: seq<byte>, chunks: seq<Entry>, gap: uint64, cap: uint64) returns (r: Result<seq<(seq<byte>, nat)>>)
    requires Ranged(chunks) && InOrder(chunks)
    ensures r.Ok? <==> Readable(file, chunks)
    ensures r.Ok? ==> r.value == DirectReads(file, chunks)
  {
    hide GoodGroup, Coalesced, Flatten, Readable, DirectReads, ChunkSlice, ChunkEnd, ChunkReadable, InOrder;
    var groups := CoalesceChunks(chunks, gap, cap);
    CoalescedIsGrouping(chunks, gap, cap);
    var slices: seq<(seq<byte>, nat)> := [];
    FlattenNothing();
    NothingRead(file);
    assert groups[..0] == [] && chunks[..0] == [];
    for i := 0 to |groups|
      invariant |slices| == |Flatten(groups[..i])| <= |chunks|
      invariant Readable(file, chunks[..|slices|]) && slices == DirectReads(file, chunks[..|slices|])
    {
      GroupEntries(groups, i);
      var group := groups[i];
      ghost var at := |slices|;
      assert InOrder(group.entries) by {
        PartInOrder(chunks, at, at + |group.entries|);
      }
      GroupSpan(chunks, group, at, gap, cap);
      if group.end > |file| {
        PastTheEnd(file, chunks, group, at);
        return Err(InvalidData);
      }
      var bytes := file[group.start..group.end];
      for j := 0 to |group.entries|
        invariant |slices| == at + j
        invariant Readable(file, chunks[..at + j]) && slices == DirectReads(file, chunks[..at + j])
      {
        GroupSpansEntry(group, gap, cap, j);
        assert group.entries[j] == chunks[at..at + |group.entries|][j] == chunks[at + j];
        SliceIsDirectRead(file, group.start, group.end, group.entries[j]);
        OneMoreRead(file, chunks, at + j);
        var slice := ChunkSlice(bytes, group.start, group.entries[j]);
        if slice.Err? {
          return Err(slice.error);
        }
        slices := slices + [slice.value];
      }
    }
    assert groups[..|groups|] == groups && chunks[..|chunks|] == chunks;
    return Ok(slices);
  }

  lemma NothingRead(file: seq<byte>)
    ensures Readable(file, []) && DirectReads(file, []) == []
  {
  }

  lemma OneMoreRead(file: seq<byte>, chunks: seq<Entry>, n: nat)
    requires n < |chunks| && Readable(file, chunks[..n])
    ensures Readable(file, chunks) ==> ChunkReadable(file, chunks[n])
    ensures ChunkReadable(file, chunks[n]) ==> Readable(file, chunks[..n + 1])
    ensures ChunkReadable(file, chunks[n]) ==>
      DirectReads(file, chunks[..n + 1]) == DirectReads(file, chunks[..n]) + [DirectRead(file, chunks[n])]
  {
    hide ChunkReadable;
    if ChunkReadable(file, chunks[n]) {
      var more := chunks[..n + 1];
      forall i | 0 <= i < |more| ensures ChunkReadable(file, more[i]) {
        if i < n {
          assert ChunkReadable(file, chunks[..n][i]);
        }
      }
    }
  }

  /** A group that ends past the file ends with a chunk no read can return. */
  lemma PastTheEnd(file: seq<byte>, chunks: seq<Entry>, g: ChunkGroup, at: nat)
    requires g.entries != [] && at + |g.entries| <= |chunks| && g.end > |file|
    requires var last := chunks[at + |g.entries| - 1]; g.end == last.offset + last.byteSize
    ensures !Readable(file, chunks)
  {
    assert !ChunkReadable(file, chunks[at + |g.entries| - 1]);
  }

  lemma FlattenNothing()
    ensures Flatten([]) == []
  {
  }

  lemma PartInOrder(chunks: seq<Entry>, lo: nat, hi: nat)
    requires lo <= hi <= |chunks| && InOrder(chunks)
    ensures InOrder(chunks[lo..hi])
  {
  }

  /** A group's end is the end of its last chunk in the list. */
  lemma GroupSpan(chunks: seq<Entry>, g: ChunkGroup, at: nat, gap: nat, cap: nat)
    requires GoodGroup(g, gap, cap) && InOrder(chunks)
    requires at + |g.entries| <= |chunks| && chunks[at..at + |g.entries|] == g.entries
    ensures g.start <= g.end && g.entries != []
    ensures var last := chunks[at + |g.entries| - 1]; g.end == last.offset + last.byteSize
  {
    var n := |g.entries| - 1;
    assert g.entries[n] == chunks[at + n] && g.entries[0] == chunks[at];
    assert n > 0 ==> ChunkEnd(chunks[at]) <= chunks[at + n].offset;
  }

  /** What selection returns from a disjoint, accepted hierarchy is fit for grouping. */
  lemma SelectedInOrder(env: Env, h: EntryMap, info: CopcInfo, q: PointQuery)
    requires Keyed(h) && MapDisjoint(h) && (forall k :: k in h ==> EntryAccepted(env, h[k]))
    requires Select(SortedValues(h), info, q).Ok?
    ensures var chunks := Select(SortedValues(h), info, q).value;
      InOrder(chunks) && Ranged(chunks) && Readable(env.bytes, chunks)
  {
    hide SortedValues, Select, VoxelKey.Valid, LevelInRange, BoxReaches, MapDisjoint;
    SelectedChunksFollow(h, info, q);
    SelectMembers(SortedValues(h), info, q);
    var chunks := Select(SortedValues(h), info, q).value;
    forall i | 0 <= i < |chunks|
      ensures chunks[i].byteSize > 0 && ChunkEnd(chunks[i]) <= UINT64_MAX && ChunkReadable(env.bytes, chunks[i])
    {
      assert chunks[i] in chunks;
      ValuesMembers(h, chunks[i]);
    }
  }
}
