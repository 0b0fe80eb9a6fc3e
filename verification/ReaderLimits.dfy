/** What the readers demand of pages and entries, in plain numbers. */
module ReaderLimits {
  import opened Core
  import opened Voxel
  import opened Codec
  import opened Hierarchy
  import opened ChunkRanges
  import opened Loader
  import opened LoaderFacts
  import opened RoundTrip
  import opened RangeReader
  import opened LazyReady
  import opened LazyEager

  /** A page may be read at this point: sized in whole entries, at most 64 MiB, within 256 MiB in all, inside the file. */
  ghost predicate PageInNumbers(bytes: seq<byte>, r: ByteRange, total: nat) {
    && r.size > 0 && r.size % 32 == 0 && r.size <= 67108864 && total + r.size <= 268435456
    && r.offset + r.size <= |bytes| && r.offset + r.size <= 18446744073709551615
  }

  /**
   An entry may be used: a chunk is at most 512 MiB inside the file and the point data, a page inside the file and the
   hierarchy section.
   */
  ghost predicate EntryInNumbers(env: Env, e: Entry) {
    && e.Valid()
    && (e.pointCount > 0 ==>
          && e.byteSize <= 536870912 && e.offset + e.byteSize <= |env.bytes| && e.offset + e.byteSize <= 18446744073709551615
          && env.ranges.pointStart <= e.offset && e.offset + e.byteSize <= env.ranges.pointEnd)
    && (e.pointCount == -1 ==>
          && e.offset + e.byteSize <= |env.bytes| && e.offset + e.byteSize <= 18446744073709551615
          && env.ranges.hierarchyStart <= e.offset && e.offset + e.byteSize <= env.ranges.hierarchyEnd)
  }

  lemma AcceptedInNumbers(env: Env, e: Entry)
    ensures EntryAccepted(env, e) <==> EntryInNumbers(env, e)
  {
  }

  lemma AllowedInNumbers(env: Env, r: ByteRange, total: nat)
    ensures PageAllowed(env, r, total) <==> PageInNumbers(env.bytes, r, total)
  {
  }

  // Turns of the eager loader -----------------------------------------------

  lemma RefusedEntry(env: Env, h: EntryMap, entries: seq<Entry>)
    requires InsertEntries(env, h, entries).Ok?
    ensures forall e :: e in entries ==> EntryAccepted(env, e)
  {
    hide EntryAccepted;
    InsertEntriesInserts(env, h, entries);
  }

  /** The next turn on a page of new keys succeeds exactly when the numbers are right for the page and for each of its entries. */
  lemma FreshPageLoads(env: Env, st: LoadState, r: ByteRange, entries: seq<Entry>)
    requires InFile(env.bytes, r.offset, r.size) ==> PageAt(env, r) == Ok(entries)
    requires DistinctEntryKeys(entries) && forall e :: e in entries ==> e.key !in st.hierarchy
    ensures LoadRange(env, st, r).Ok? <==>
      PageInNumbers(env.bytes, r, st.totalBytes) && forall e :: e in entries ==> EntryInNumbers(env, e)
  {
    hide EntryAccepted, InsertEntries, PushChildren, EntryInNumbers, DistinctEntryKeys;
    AllowedInNumbers(env, r, st.totalBytes);
    forall e ensures EntryAccepted(env, e) <==> EntryInNumbers(env, e) {
      AcceptedInNumbers(env, e);
    }
    if LoadRange(env, st, r).Ok? {
      RefusedEntry(env, st.hierarchy, entries);
    }
    if forall e :: e in entries ==> EntryAccepted(env, e) {
      InsertDistinct(env, st.hierarchy, entries);
    }
  }

  // Loads of the lazy reader ------------------------------------------------

  /** The lazy reader loads an unread page only under the same numbers. */
  lemma LazyPageInNumbers(src: Source, st: LazyState, r: ByteRange)
    requires r !in st.visited && LoadPage(src, st, r).ok
    ensures PageInNumbers(src.env.bytes, r, st.totalBytes)
    ensures PageAt(src.env, r).Ok? && forall e :: e in PageAt(src.env, r).value ==> EntryInNumbers(src.env, e)
  {
    hide EntryAccepted, AbsorbEntries, EntryInNumbers, PageAt;
    var entries := PageAt(src.env, r).value;
    var read := st.(visited := st.visited + {r}, totalBytes := st.totalBytes + r.size, fetched := st.fetched + [r]);
    AbsorbInserts(src, read, entries);
    RefusedEntry(src.env, read.hierarchy, entries);
    forall e ensures EntryAccepted(src.env, e) <==> EntryInNumbers(src.env, e) {
      AcceptedInNumbers(src.env, e);
    }
  }

  // Opened files ------------------------------------------------------------

  /** In an opened file every page below the root lies in the hierarchy section, and no page is read twice. */
  lemma OpenIsBounded(input: CopcInput)
    requires OpenHierarchy(input).Ok?
    ensures var pages := OpenHierarchy(input).value.fetched;
      && NoRepeat(pages) && SeqBytes(pages) <= 268435456 && pages != [] && pages[0] == Root(input)
      && (forall r :: r in pages ==> r.size > 0 && r.size % 32 == 0 && r.size <= 67108864 && r.offset + r.size <= |input.bytes|)
      && (forall r :: r in pages ==>
            input.evlrOffset <= r.offset && r.offset + r.size <= input.evlrOffset + input.evlrLen)
  {
    hide LoadAll, WholeAccepted, Connected, EntryAccepted, PageAt;
    var env := Env(input.bytes, NewDataRanges(input).value);
    LoadAllComplete(env, Root(input));
    LoadAllReadable(env, Root(input));
    var pages := LoadAll(env, Root(input)).value.fetched;
    PageInSection(env, Root(input), pages, LoadAll(env, Root(input)).value.hierarchy, 0);
    forall r | r in pages ensures input.evlrOffset <= r.offset && r.offset + r.size <= input.evlrOffset + input.evlrLen {
      var i :| 0 <= i < |pages| && pages[i] == r;
      PageInSection(env, Root(input), pages, LoadAll(env, Root(input)).value.hierarchy, i);
    }
  }

  lemma PageInSection(env: Env, root: ByteRange, pages: seq<ByteRange>, h: EntryMap, i: nat)
    requires Complete(env, root, pages, h) && i < |pages|
    ensures i == 0 ==> pages[i] == root
    ensures i > 0 ==> env.ranges.hierarchyStart <= pages[i].offset && pages[i].offset + pages[i].size <= env.ranges.hierarchyEnd
  {
    hide OnPage;
    if i > 0 {
      assert PointedAt(env, pages, i, pages[i]);
      var j, c :| 0 <= j < i && j < |pages| && OnPage(env, pages[j], c) && c.Valid() && c.IsChildPage() && RangeOf(c) == pages[i];
      assert pages[j] in pages && EntryAccepted(env, c);
    }
  }
}
