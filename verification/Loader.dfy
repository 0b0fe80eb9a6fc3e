/** Eager loading of the whole hierarchy from untrusted bytes (copc-reader/src/lib.rs). */
module Loader {
  import opened Core
  import opened Voxel
  import opened Codec
  import opened Hierarchy
  import opened ChunkRanges

  const MAX_HIERARCHY_PAGE_BYTES := 64 * 1024 * 1024
  const MAX_HIERARCHY_TOTAL_BYTES := 256 * 1024 * 1024
  const MAX_POINT_CHUNK_BYTES := 512 * 1024 * 1024

  datatype DataRanges = DataRanges(pointStart: uint64, pointEnd: uint64, hierarchyStart: uint64, hierarchyEnd: uint64)

  datatype ByteRange = ByteRange(offset: nat, size: nat)

  /** The file and the sections its header declares. */
  datatype Env = Env(bytes: seq<byte>, ranges: DataRanges)

  /** The header fields the hierarchy checks use. */
  datatype CopcInput = CopcInput(
    bytes: seq<byte>, offsetToPointData: uint32, offsetToFirstEvlr: uint64, numberOfPoints: uint64,
    rootOffset: uint64, rootSize: uint64, evlrOffset: uint64, evlrLen: uint64)

  /** `validate_range_in_file` */
  predicate InFile(bytes: seq<byte>, offset: nat, size: nat) {
    offset + size <= UINT64_MAX && offset + size <= |bytes|
  }

  /** `validate_hierarchy_entry` */
  predicate EntryAccepted(env: Env, e: Entry) {
    && e.Valid()
    && (e.HasPointData() ==>
          && e.byteSize <= MAX_POINT_CHUNK_BYTES
          && InFile(env.bytes, e.offset, e.byteSize)
          && env.ranges.pointStart <= e.offset && e.offset + e.byteSize <= env.ranges.pointEnd)
    && (e.IsChildPage() ==>
          && InFile(env.bytes, e.offset, e.byteSize)
          && env.ranges.hierarchyStart <= e.offset && e.offset + e.byteSize <= env.ranges.hierarchyEnd)
  }

  function RangeOf(e: Entry): ByteRange
    requires e.Valid() && e.IsChildPage()
  {
    ByteRange(e.offset, e.byteSize)
  }

  /** The size, budget and bounds checks made before a page's bytes are fetched. */
  predicate PageAllowed(env: Env, r: ByteRange, total: nat) {
    && r.size != 0 && r.size % HIERARCHY_ENTRY_BYTES == 0
    && r.size <= MAX_HIERARCHY_PAGE_BYTES
    && total + r.size <= MAX_HIERARCHY_TOTAL_BYTES
    && InFile(env.bytes, r.offset, r.size)
  }

  /** The entries of the page stored at a range of the file. */
  function PageAt(env: Env, r: ByteRange): (page: Result<seq<Entry>>)
    ensures page.Ok? ==> forall e :: e in page.value ==> e.Valid()
  {
    if InFile(env.bytes, r.offset, r.size) then PageFromLe(env.bytes[r.offset..r.offset + r.size]) else Err(InvalidData)
  }

  /** `read_hierarchy_page_at`, with the running byte total. */
  function ReadPage(env: Env, r: ByteRange, total: nat): (page: Result<(seq<Entry>, nat)>)
    ensures page.Ok? ==>
      && PageAllowed(env, r, total)
      && page.value.1 == total + r.size && total + HIERARCHY_ENTRY_BYTES <= page.value.1 <= MAX_HIERARCHY_TOTAL_BYTES
      && PageAt(env, r) == Ok(page.value.0)
  {
    if PageAllowed(env, r, total) then
      var entries :- PageAt(env, r);
      Ok((entries, total + r.size))
    else Err(InvalidData)
  }

  /** A new entry, or a point or empty entry replacing the child-page entry of its key. */
  predicate Insertable(h: EntryMap, e: Entry) {
    e.key !in h || (h[e.key].IsChildPage() && !e.IsChildPage())
  }

  function InsertEntries(env: Env, h: EntryMap, entries: seq<Entry>): Result<EntryMap> {
    if entries == [] then Ok(h)
    else
      var n := |entries| - 1;
      var h' :- InsertEntries(env, h, entries[..n]);
      if EntryAccepted(env, entries[n]) && Insertable(h', entries[n]) then Ok(h'[entries[n].key := entries[n]])
      else Err(InvalidData)
  }

  datatype Worklist = Worklist(visited: set<ByteRange>, pending: seq<ByteRange>)

  function PushChildren(w: Worklist, entries: seq<Entry>): Worklist
    requires forall e :: e in entries ==> e.Valid()
  {
    if entries == [] then w
    else
      var n := |entries| - 1;
      var w' := PushChildren(w, entries[..n]);
      if entries[n].IsChildPage() && RangeOf(entries[n]) !in w'.visited then
        Worklist(w'.visited + {RangeOf(entries[n])}, w'.pending + [RangeOf(entries[n])])
      else w'
  }

  /** The loader's state; `fetched` records the pages read, in order. */
  datatype LoadState = LoadState(hierarchy: EntryMap, work: Worklist, totalBytes: nat, fetched: seq<ByteRange>)

  /** `queue_hierarchy_page`: all entries are inserted before any child page is queued. */
  function QueuePage(env: Env, st: LoadState, entries: seq<Entry>): (r: Result<LoadState>)
    requires forall e :: e in entries ==> e.Valid()
    ensures r.Ok? ==> r.value.totalBytes == st.totalBytes && r.value.fetched == st.fetched
  {
    var h :- InsertEntries(env, st.hierarchy, entries);
    Ok(st.(hierarchy := h, work := PushChildren(st.work, entries)))
  }

  /** Reads the page at a range and queues what it holds. */
  function LoadRange(env: Env, st: LoadState, r: ByteRange): (next: Result<LoadState>)
    ensures next.Ok? ==> next.value.fetched == st.fetched + [r]
    ensures next.Ok? ==> st.totalBytes + HIERARCHY_ENTRY_BYTES <= next.value.totalBytes <= MAX_HIERARCHY_TOTAL_BYTES
  {
    var page :- ReadPage(env, r, st.totalBytes);
    QueuePage(env, st.(totalBytes := page.1, fetched := st.fetched + [r]), page.0)
  }

  /** One turn of the worklist: pop the last pending page and load it. */
  function Step(env: Env, st: LoadState): (next: Result<LoadState>)
    requires st.work.pending != []
    ensures next.Ok? ==> |next.value.fetched| == |st.fetched| + 1
    ensures next.Ok? ==> st.totalBytes + HIERARCHY_ENTRY_BYTES <= next.value.totalBytes <= MAX_HIERARCHY_TOTAL_BYTES
  {
    var n := |st.work.pending| - 1;
    LoadRange(env, st.(work := st.work.(pending := st.work.pending[..n])), st.work.pending[n])
  }

  /** The whole worklist run. The byte budget alone bounds it, whatever the bytes are. */
  function Run(env: Env, st: LoadState): Result<LoadState>
    decreases MAX_HIERARCHY_TOTAL_BYTES - st.totalBytes
  {
    if st.work.pending == [] then Ok(st)
    else
      var next :- Step(env, st);
      Run(env, next)
  }

  function Root(input: CopcInput): ByteRange {
    ByteRange(input.rootOffset, input.rootSize)
  }

  /** `CopcDataRanges::new` */
  function NewDataRanges(input: CopcInput): Result<DataRanges> {
    if input.offsetToFirstEvlr < input.offsetToPointData then Err(InvalidData)
    else if input.evlrOffset + input.evlrLen > UINT64_MAX then Err(InvalidData)
    else Ok(DataRanges(input.offsetToPointData, input.offsetToFirstEvlr, input.evlrOffset, input.evlrOffset + input.evlrLen))
  }

  function InitialState(root: ByteRange): LoadState {
    LoadState(map[], Worklist({root}, []), 0, [])
  }

  /** Queueing a root page that has been read, then the whole run. */
  function LoadFrom(env: Env, st: LoadState, rootEntries: seq<Entry>): Result<LoadState>
    requires forall e :: e in rootEntries ==> e.Valid()
  {
    var first :- QueuePage(env, st, rootEntries);
    Run(env, first)
  }

  /** Reading the root page and everything it leads to. */
  function LoadAll(env: Env, root: ByteRange): Result<LoadState> {
    var first :- LoadRange(env, InitialState(root), root);
    Run(env, first)
  }

  /** The checks a loaded hierarchy must pass as a whole. */
  predicate WholeAccepted(h: EntryMap, numberOfPoints: uint64) {
    InsertRanges(SortedValues(h)).Ok? && EntriesPoints(SortedValues(h)) == numberOfPoints
  }

  /** The hierarchy part of `CopcFile::from_reader`. */
  function OpenHierarchy(input: CopcInput): Result<LoadState> {
    if input.rootSize > MAX_HIERARCHY_PAGE_BYTES then Err(InvalidData)
    else if input.rootOffset != input.evlrOffset || input.rootSize > input.evlrLen then Err(InvalidData)
    else
      var ranges :- NewDataRanges(input);
      var st :- LoadAll(Env(input.bytes, ranges), Root(input));
      if WholeAccepted(st.hierarchy, input.numberOfPoints) then Ok(st) else Err(InvalidData)
  }

  // The loops ---------------------------------------------------------------

  lemma {:induction false} InsertEntriesFails(env: Env, h: EntryMap, entries: seq<Entry>, n: nat)
    requires n <= |entries| && InsertEntries(env, h, entries[..n]) == Err(InvalidData)
    ensures InsertEntries(env, h, entries) == Err(InvalidData)
    decreases |entries|
  {
    if n < |entries| {
      assert entries[..|entries| - 1][..n] == entries[..n];
      InsertEntriesFails(env, h, entries[..|entries| - 1], n);
    } else {
      assert entries[..n] == entries;
    }
  }

  method QueueHierarchyPage(env: Env, st: LoadState, entries: seq<Entry>) returns (r: Result<LoadState>)
    requires forall e :: e in entries ==> e.Valid()
    ensures r == QueuePage(env, st, entries)
  {
    var hierarchy := st.hierarchy;
    for i := 0 to |entries|
      invariant InsertEntries(env, st.hierarchy, entries[..i]) == Ok(hierarchy)
    {
      var entry := entries[i];
      assert entries[..i + 1][..i] == entries[..i];
      if !EntryAccepted(env, entry) {
        InsertEntriesFails(env, st.hierarchy, entries, i + 1);
        return Err(InvalidData);
      }
      if entry.key !in hierarchy {
        hierarchy := hierarchy[entry.key := entry];
      } else if hierarchy[entry.key].IsChildPage() && !entry.IsChildPage() {
        hierarchy := hierarchy[entry.key := entry];
      } else {
        InsertEntriesFails(env, st.hierarchy, entries, i + 1);
        return Err(InvalidData);
      }
    }
    assert entries[..|entries|] == entries;
    var visited, pending := st.work.visited, st.work.pending;
    for i := 0 to |entries|
      invariant Worklist(visited, pending) == PushChildren(st.work, entries[..i])
    {
      assert entries[..i + 1][..i] == entries[..i];
      if entries[i].IsChildPage() {
        var range := RangeOf(entries[i]);
        if range !in visited {
          visited := visited + {range};
          pending := pending + [range];
        }
      }
    }
    return Ok(st.(hierarchy := hierarchy, work := Worklist(visited, pending)));
  }

  /** `insert_hierarchy_pages`, after the root page has been read. */
  method InsertHierarchyPages(env: Env, st: LoadState, rootEntries: seq<Entry>) returns (r: Result<LoadState>)
    requires forall e :: e in rootEntries ==> e.Valid()
    ensures r == LoadFrom(env, st, rootEntries)
  {
    var first := QueueHierarchyPage(env, st, rootEntries);
    if first.Err? {
      return first;
    }
    var current := first.value;
    while current.work.pending != []
      invariant Run(env, current) == Run(env, first.value)
      decreases MAX_HIERARCHY_TOTAL_BYTES - current.totalBytes
    {
      var n := |current.work.pending| - 1;
      var range := current.work.pending[n];
      current := current.(work := current.work.(pending := current.work.pending[..n]));
      var page := ReadPage(env, range, current.totalBytes);
      if page.Err? {
        return Err(page.error);
      }
      var queued := QueueHierarchyPage(env,
        current.(totalBytes := page.value.1, fetched := current.fetched + [range]), page.value.0);
      if queued.Err? {
        return queued;
      }
      current := queued.value;
    }
    return Ok(current);
  }

  method OpenFile(input: CopcInput) returns (r: Result<LoadState>)
    ensures r.Ok? <==> OpenHierarchy(input).Ok?
    ensures r.Ok? ==> r == OpenHierarchy(input)
  {
    if input.rootSize > MAX_HIERARCHY_PAGE_BYTES {
      return Err(InvalidData);
    }
    if input.rootOffset != input.evlrOffset || input.rootSize > input.evlrLen {
      return Err(InvalidData);
    }
    var ranges := NewDataRanges(input);
    if ranges.Err? {
      return Err(InvalidData);
    }
    var env, root := Env(input.bytes, ranges.value), Root(input);
    var page := ReadPage(env, root, 0);
    if page.Err? {
      return Err(InvalidData);
    }
    var loaded := InsertHierarchyPages(env, InitialState(root).(totalBytes := page.value.1, fetched := [root]), page.value.0);
    assert InitialState(root).fetched + [root] == [root];
    if loaded.Err? {
      return loaded;
    }
    var values := SortedValues(loaded.value.hierarchy);
    var disjoint := ValidatePointChunkRanges(values);
    var total := SumPoints(values);
    if !disjoint || total != input.numberOfPoints {
      return Err(InvalidData);
    }
    return loaded;
  }

  lemma {:induction false} InsertRangesFails(entries: seq<Entry>, n: nat)
    requires n <= |entries| && InsertRanges(entries[..n]).Err?
    ensures InsertRanges(entries).Err?
    decreases |entries|
  {
    if n < |entries| {
      assert entries[..|entries| - 1][..n] == entries[..n];
      InsertRangesFails(entries[..|entries| - 1], n);
    } else {
      assert entries[..n] == entries;
    }
  }

  /** `validate_point_chunk_ranges` */
  method ValidatePointChunkRanges(values: seq<Entry>) returns (ok: bool)
    ensures ok <==> InsertRanges(values).Ok?
  {
    var ranges: RangeMap := map[];
    for i := 0 to |values|
      invariant InsertRanges(values[..i]) == Ok(ranges)
    {
      assert values[..i + 1][..i] == values[..i];
      if values[i].HasPointData() {
        var inserted := InsertRange(ranges, values[i]);
        if inserted.Err? {
          InsertRangesFails(values, i + 1);
          return false;
        }
        ranges := inserted.value;
      }
    }
    assert values[..|values|] == values;
    return true;
  }

  /** The running total of `validate_hierarchy_point_count`. */
  method SumPoints(values: seq<Entry>) returns (total: nat)
    ensures total == EntriesPoints(values)
  {
    total := 0;
    for i := 0 to |values|
      invariant total == EntriesPoints(values[..i])
    {
      assert values[..i + 1][..i] == values[..i];
      if values[i].HasPointData() {
        total := total + values[i].pointCount;
      }
    }
    assert values[..|values|] == values;
  }
}
