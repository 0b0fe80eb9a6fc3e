/** The interval map that rejects overlapping point chunks (copc-reader/src/lib.rs). */
module ChunkRanges {
  import opened Core
  import opened Voxel
  import opened Codec
  import opened Hierarchy

  /** Start of a chunk to its end and key. */
  type RangeMap = map<uint64, (uint64, VoxelKey)>

  /** Stored ranges are non-empty and pairwise disjoint. */
  ghost predicate Sound(m: RangeMap) {
    && (forall s :: s in m ==> s < m[s].0)
    && (forall s, t :: s in m && t in m && s < t ==> m[s].0 <= t)
  }

  predicate IsFloor(keys: set<uint64>, x: uint64, k: uint64) {
    k in keys && k <= x && forall j :: j in keys && j <= x ==> j <= k
  }

  predicate IsCeiling(keys: set<uint64>, x: uint64, k: uint64) {
    k in keys && x <= k && forall j :: j in keys && x <= j ==> k <= j
  }

  lemma {:induction false} FloorExists(keys: set<uint64>, x: uint64, k: uint64)
    requires k in keys && k <= x
    ensures exists f :: IsFloor(keys, x, f)
    decreases x - k
  {
    if !IsFloor(keys, x, k) {
      var j :| j in keys && j <= x && j > k;
      FloorExists(keys, x, j);
    }
  }

  lemma {:induction false} CeilingExists(keys: set<uint64>, x: uint64, k: uint64)
    requires k in keys && x <= k
    ensures exists f :: IsCeiling(keys, x, f)
    decreases k - x
  {
    if !IsCeiling(keys, x, k) {
      var j :| j in keys && x <= j && j < k;
      CeilingExists(keys, x, j);
    }
  }

  /** `range(..=x).next_back()` */
  function Floor(keys: set<uint64>, x: uint64): (r: Option<uint64>)
    ensures r.Some? ==> IsFloor(keys, x, r.value)
    ensures r.None? ==> forall j :: j in keys ==> j > x
  {
    if k :| k in keys && k <= x then
      FloorExists(keys, x, k);
      var f :| IsFloor(keys, x, f);
      Some(f)
    else None
  }

  /** `range(x..).next()` */
  function Ceiling(keys: set<uint64>, x: uint64): (r: Option<uint64>)
    ensures r.Some? ==> IsCeiling(keys, x, r.value)
    ensures r.None? ==> forall j :: j in keys ==> j < x
  {
    if k :| k in keys && x <= k then
      CeilingExists(keys, x, k);
      var f :| IsCeiling(keys, x, f);
      Some(f)
    else None
  }

  /** `insert_point_chunk_range`: looks only at the neighbours of the new start. */
  function InsertRange(m: RangeMap, e: Entry): Result<RangeMap> {
    if e.byteSize < 0 then Err(InvalidData)
    else if e.offset + e.byteSize > UINT64_MAX then Err(InvalidData)
    else
      var end := e.offset + e.byteSize;
      var before := Floor(m.Keys, e.offset);
      var after := Ceiling(m.Keys, e.offset);
      if before.Some? && m[before.value].0 > e.offset then Err(InvalidData)
      else if after.Some? && after.value < end then Err(InvalidData)
      else Ok(m[e.offset := (end, e.key)])
  }

  /** The chunk shares no byte with any stored range. */
  ghost predicate Clear(m: RangeMap, e: Entry) {
    forall s :: s in m ==> m[s].0 <= e.offset || e.offset + e.byteSize <= s
  }

  /** Looking at the two neighbours is exact, and an accepted chunk keeps the map sound. */
  lemma NeighbourCheckExact(m: RangeMap, e: Entry)
    requires Sound(m) && e.byteSize > 0 && e.offset + e.byteSize <= UINT64_MAX
    ensures InsertRange(m, e).Ok? <==> Clear(m, e)
    ensures InsertRange(m, e).Ok? ==> Sound(InsertRange(m, e).value) && e.offset !in m
    ensures InsertRange(m, e).Ok? ==> InsertRange(m, e).value == m[e.offset := (e.offset + e.byteSize, e.key)]
  {
    var before, after := Floor(m.Keys, e.offset), Ceiling(m.Keys, e.offset);
    if InsertRange(m, e).Ok? {
      forall s | s in m ensures m[s].0 <= e.offset || e.offset + e.byteSize <= s {
        if s <= e.offset {
          assert before.Some? && s <= before.value;
          var b := before.value;
          assert s == b || m[s].0 <= b;
        } else {
          assert after.Some? && after.value <= s;
        }
      }
    }
  }

  // Whole hierarchies -------------------------------------------------------

  /** Inserts every point chunk of a list into an empty map, in order. */
  function InsertRanges(entries: seq<Entry>): Result<RangeMap> {
    if entries == [] then Ok(map[])
    else
      var n := |entries| - 1;
      var m :- InsertRanges(entries[..n]);
      if entries[n].HasPointData() then InsertRange(m, entries[n]) else Ok(m)
  }

  predicate ChunksDisjoint(a: Entry, b: Entry) {
    a.offset + a.byteSize <= b.offset || b.offset + b.byteSize <= a.offset
  }

  ghost predicate AllDisjoint(entries: seq<Entry>) {
    forall i, j :: 0 <= i < j < |entries| && entries[i].HasPointData() && entries[j].HasPointData() ==>
      ChunksDisjoint(entries[i], entries[j])
  }

  /** Chunk sizes the entry check lets through. */
  predicate ChunkSized(e: Entry) {
    e.HasPointData() ==> e.byteSize > 0 && e.offset + e.byteSize <= UINT64_MAX
  }

  predicate IsRange(e: Entry, s: int, end: int) {
    e.HasPointData() && e.offset == s && e.offset + e.byteSize == end
  }

  /** The map's ranges are exactly those of the point chunks. */
  ghost predicate HoldsExactly(m: RangeMap, entries: seq<Entry>) {
    && (forall s :: s in m ==> exists i :: 0 <= i < |entries| && IsRange(entries[i], s, m[s].0))
    && (forall i :: 0 <= i < |entries| && entries[i].HasPointData() ==>
          entries[i].offset in m && m[entries[i].offset].0 == entries[i].offset + entries[i].byteSize)
  }

  lemma InsertStepExact(entries: seq<Entry>, e: Entry, m: RangeMap)
    requires Sound(m) && HoldsExactly(m, entries) && AllDisjoint(entries) && ChunkSized(e)
    ensures var r := if e.HasPointData() then InsertRange(m, e) else Ok(m);
      && (r.Ok? <==> AllDisjoint(entries + [e]))
      && (r.Ok? ==> Sound(r.value) && HoldsExactly(r.value, entries + [e]))
  {
    hide InsertRange, Sound, HoldsExactly;
    DisjointGrow(entries, e);
    if e.HasPointData() {
      NeighbourCheckExact(m, e);
      ClearMeansDisjoint(m, entries, e);
      if InsertRange(m, e).Ok? {
        HoldsGrow(m, entries, e);
      }
    } else {
      HoldsSkip(m, entries, e);
    }
  }

  /** Inserting a whole list succeeds exactly when its point chunks are pairwise disjoint. */
  lemma {:induction false} InsertRangesExact(entries: seq<Entry>)
    requires forall i :: 0 <= i < |entries| ==> ChunkSized(entries[i])
    ensures InsertRanges(entries).Ok? <==> AllDisjoint(entries)
    ensures InsertRanges(entries).Ok? ==>
      Sound(InsertRanges(entries).value) && HoldsExactly(InsertRanges(entries).value, entries)
  {
    if entries != [] {
      hide InsertRange, Sound, HoldsExactly, AllDisjoint;
      var n := |entries| - 1;
      InsertRangesExact(entries[..n]);
      assert entries == entries[..n] + [entries[n]];
      DisjointGrow(entries[..n], entries[n]);
      if InsertRanges(entries[..n]).Ok? {
        InsertStepExact(entries[..n], entries[n], InsertRanges(entries[..n]).value);
      }
    }
  }

  lemma DisjointGrow(entries: seq<Entry>, e: Entry)
    ensures AllDisjoint(entries + [e]) <==>
      && AllDisjoint(entries)
      && (e.HasPointData() ==> forall i :: 0 <= i < |entries| && entries[i].HasPointData() ==> ChunksDisjoint(entries[i], e))
  {
    var all := entries + [e];
    if AllDisjoint(all) {
      forall i, j | 0 <= i < j < |entries| && entries[i].HasPointData() && entries[j].HasPointData()
        ensures ChunksDisjoint(entries[i], entries[j])
      {
        assert ChunksDisjoint(all[i], all[j]);
      }
      forall i | 0 <= i < |entries| && entries[i].HasPointData() && e.HasPointData()
        ensures ChunksDisjoint(entries[i], e)
      {
        assert ChunksDisjoint(all[i], all[|entries|]);
      }
    }
  }

  lemma ClearMeansDisjoint(m: RangeMap, entries: seq<Entry>, e: Entry)
    requires HoldsExactly(m, entries)
    ensures Clear(m, e) <==>
      forall i :: 0 <= i < |entries| && entries[i].HasPointData() ==> ChunksDisjoint(entries[i], e)
  {
    if forall i :: 0 <= i < |entries| && entries[i].HasPointData() ==> ChunksDisjoint(entries[i], e) {
      forall s | s in m ensures m[s].0 <= e.offset || e.offset + e.byteSize <= s {
        var i :| 0 <= i < |entries| && IsRange(entries[i], s, m[s].0);
        assert ChunksDisjoint(entries[i], e);
      }
    }
  }

  lemma HoldsGrow(m: RangeMap, entries: seq<Entry>, e: Entry)
    requires HoldsExactly(m, entries) && e.HasPointData() && e.byteSize > 0 && e.offset + e.byteSize <= UINT64_MAX
    requires e.offset !in m
    ensures HoldsExactly(m[e.offset := (e.offset + e.byteSize, e.key)], entries + [e])
  {
    var all := entries + [e];
    var m' := m[e.offset := (e.offset + e.byteSize, e.key)];
    forall s | s in m' ensures exists i :: 0 <= i < |all| && IsRange(all[i], s, m'[s].0) {
      if s == e.offset {
        assert IsRange(all[|entries|], s, m'[s].0);
      } else {
        var i :| 0 <= i < |entries| && IsRange(entries[i], s, m[s].0);
        assert IsRange(all[i], s, m'[s].0);
      }
    }
  }

  lemma HoldsSkip(m: RangeMap, entries: seq<Entry>, e: Entry)
    requires HoldsExactly(m, entries) && !e.HasPointData()
    ensures HoldsExactly(m, entries + [e])
  {
    var all := entries + [e];
    forall s | s in m ensures exists i :: 0 <= i < |all| && IsRange(all[i], s, m[s].0) {
      var i :| 0 <= i < |entries| && IsRange(entries[i], s, m[s].0);
      assert IsRange(all[i], s, m[s].0);
    }
  }

  /** Chunk-disjointness stated on the hierarchy itself. */
  ghost predicate MapDisjoint(h: EntryMap) {
    forall j, k :: j in h && k in h && j != k && h[j].HasPointData() && h[k].HasPointData() ==>
      ChunksDisjoint(h[j], h[k])
  }

  lemma ListDisjoint(s: seq<Entry>, h: EntryMap)
    requires Keyed(h) && Lists(s, h) && forall k :: k in h ==> h[k] in s
    ensures AllDisjoint(s) <==> MapDisjoint(h)
  {
    if AllDisjoint(s) {
      forall j, k | j in h && k in h && j != k && h[j].HasPointData() && h[k].HasPointData()
        ensures ChunksDisjoint(h[j], h[k])
      {
        var a :| 0 <= a < |s| && s[a] == h[j];
        var b :| 0 <= b < |s| && s[b] == h[k];
        if a < b {
          assert ChunksDisjoint(s[a], s[b]);
        } else if b < a {
          assert ChunksDisjoint(s[b], s[a]);
        }
      }
    }
  }

  ghost predicate InSection(h: EntryMap, lo: nat, hi: nat) {
    forall k :: k in h && h[k].HasPointData() ==> h[k].byteSize > 0 && lo <= h[k].offset && h[k].offset + h[k].byteSize <= hi
  }

  lemma {:induction false} LastChunk(h: EntryMap, k: VoxelKey) returns (m: VoxelKey)
    requires k in h && h[k].HasPointData()
    ensures m in h && h[m].HasPointData()
    ensures forall j :: j in h && h[j].HasPointData() ==> h[j].offset <= h[m].offset
    decreases UINT64_MAX - h[k].offset
  {
    if j :| j in h && h[j].HasPointData() && h[j].offset > h[k].offset {
      m := LastChunk(h, j);
    } else {
      m := k;
    }
  }

  lemma {:induction false} NoChunks(h: EntryMap)
    requires forall k :: k in h ==> !h[k].HasPointData()
    ensures MapSum(h, BytesOf) == 0
    decreases |h|
  {
    if h != map[] {
      var k :| k in h;
      MapSumRemove(h, BytesOf, k);
      NoChunks(h - {k});
    }
  }

  /** Disjoint chunks of a section take no more bytes than the section has. */
  lemma {:induction false} ChunksFitSection(h: EntryMap, lo: nat, hi: nat)
    requires lo <= hi && InSection(h, lo, hi) && MapDisjoint(h)
    ensures MapSum(h, BytesOf) <= hi - lo
    decreases |h|
  {
    if k :| k in h && h[k].HasPointData() {
      var m := LastChunk(h, k);
      MapSumRemove(h, BytesOf, m);
      var rest := h - {m};
      forall j | j in rest && rest[j].HasPointData() ensures rest[j].offset + rest[j].byteSize <= h[m].offset {
        assert ChunksDisjoint(h[j], h[m]);
      }
      ChunksFitSection(rest, lo, h[m].offset);
    } else {
      NoChunks(h);
    }
  }
}
