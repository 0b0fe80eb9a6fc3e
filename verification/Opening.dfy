/** Opening a file from its header fields: eagerly (copc-reader/src/lib.rs) and lazily (copc-reader/src/ranged.rs). */
module Opening {
  import opened Core
  import opened Codec
  import opened Hierarchy
  import opened HierarchyPages
  import opened PagePlan
  import opened PageLayout
  import opened ChunkWriter
  import opened LodShape
  import opened Loader
  import opened LoaderFacts
  import opened RoundTrip
  import opened Selection
  import opened RangeReader
  import opened LazyEager
  import opened LazyReady
  import opened LazyRounds
  import opened LazyQueries
  import opened HierarchyFile
  import Evlrs
  import opened WriteOpen
  import opened OpenLimits
  import opened OneNodeFiles

  const LAS_HEADER_SIZE_14 := 375
  const MAX_VLR_SECTION_BYTES := 64 * 1024 * 1024

  /** The fields of the LAS header and the COPC info VLR that opening goes by. */
  datatype Header = Header(
    offsetToPointData: uint32, offsetToFirstEvlr: uint64, numberOfEvlrs: uint32, numberOfPoints: uint64,
    rootOffset: uint64, rootSize: uint64, info: CopcInfo)

  // The eager reader --------------------------------------------------------

  /** What the eager reader goes on with once it has found the hierarchy section. */
  function InputOf(bytes: seq<byte>, header: Header): Result<CopcInput> {
    if header.offsetToPointData < 375 then Err(InvalidData)
    else
      var section :- Evlrs.EagerSection(bytes, header.offsetToFirstEvlr, header.numberOfEvlrs, header.rootOffset, header.rootSize);
      SectionIsRoot(bytes, header);
      Ok(CopcInput(bytes, header.offsetToPointData, header.offsetToFirstEvlr, header.numberOfPoints,
                   header.rootOffset, header.rootSize, section.start, section.len))
  }

  lemma SectionIsRoot(bytes: seq<byte>, header: Header)
    ensures var section := Evlrs.EagerSection(bytes, header.offsetToFirstEvlr, header.numberOfEvlrs, header.rootOffset, header.rootSize);
      section.Ok? ==> section.value.start == header.rootOffset
  {
    hide Evlrs.DeclaredEvlrs, Evlrs.FirstHierarchy;
  }

  function EagerOpen(bytes: seq<byte>, header: Header): Result<LoadState> {
    var input :- InputOf(bytes, header);
    OpenHierarchy(input)
  }

  /** `CopcFile::from_reader` after the header and VLRs. */
  method OpenEagerly(bytes: seq<byte>, header: Header) returns (r: Result<LoadState>)
    ensures r.Ok? <==> EagerOpen(bytes, header).Ok?
    ensures r.Ok? ==> r == EagerOpen(bytes, header)
  {
    hide OpenHierarchy, Evlrs.DeclaredEvlrs, Evlrs.FirstHierarchy;
    if header.offsetToPointData < LAS_HEADER_SIZE_14 {
      return Err(InvalidData);
    }
    if header.rootSize > MAX_HIERARCHY_PAGE_BYTES {
      BigRootRefused(bytes, header);
      return Err(InvalidData);
    }
    var evlrs := Evlrs.ReadEvlrRefs(bytes, header.offsetToFirstEvlr, header.numberOfEvlrs);
    if evlrs.Err? {
      return Err(InvalidData);
    }
    var root := Evlrs.FirstHierarchy(evlrs.value);
    if root.None? {
      return Err(InvalidData);
    }
    if header.rootOffset != root.value.dataOffset {
      return Err(InvalidData);
    }
    if header.rootSize > root.value.dataLen {
      return Err(InvalidData);
    }
    r := OpenFile(CopcInput(bytes, header.offsetToPointData, header.offsetToFirstEvlr, header.numberOfPoints,
                            header.rootOffset, header.rootSize, root.value.dataOffset, root.value.dataLen));
  }

  lemma BigRootRefused(bytes: seq<byte>, header: Header)
    requires header.rootSize > MAX_HIERARCHY_PAGE_BYTES
    ensures EagerOpen(bytes, header).Err?
  {
    hide Evlrs.DeclaredEvlrs, Evlrs.FirstHierarchy;
  }

  // The lazy reader ---------------------------------------------------------

  /** The lazy reader fetches everything between the header and the point data at once, up to a limit. */
  predicate VlrSectionFits(header: Header) {
    header.offsetToPointData <= 375 + 67108864
  }

  function RangesOf(header: Header, section: Evlrs.Section): Result<DataRanges> {
    if header.offsetToFirstEvlr < header.offsetToPointData || section.start + section.len > UINT64_MAX then Err(InvalidData)
    else Ok(DataRanges(header.offsetToPointData, header.offsetToFirstEvlr, section.start, section.start + section.len))
  }

  function RootOf(header: Header): ByteRange {
    ByteRange(header.rootOffset, header.rootSize)
  }

  /** What the lazy reader goes on with once it has checked the hierarchy section. */
  function SourceOf(bytes: seq<byte>, header: Header): Result<Source> {
    if header.offsetToPointData < 375 || !VlrSectionFits(header) then Err(InvalidData)
    else if header.rootSize > 67108864 then Err(InvalidData)
    else
      var section :- Evlrs.LazySection(bytes, header.rootOffset, header.rootSize);
      var ranges :- RangesOf(header, section);
      Ok(Source(Env(bytes, ranges), header.info, header.numberOfPoints))
  }

  ghost predicate LazyOpens(bytes: seq<byte>, header: Header) {
    SourceOf(bytes, header).Ok? && OpenLazy(SourceOf(bytes, header).value, RootOf(header)).ok
  }

  /** `CopcRangeReader::open` after the header and VLRs. */
  method OpenLazily(bytes: seq<byte>, header: Header) returns (r: Result<CopcRangeReader>)
    ensures r.Ok? <==> LazyOpens(bytes, header)
    ensures r.Ok? ==>
      && fresh(r.value) && r.value.Valid() && Ok(r.value.source) == SourceOf(bytes, header)
      && r.value.State() == OpenLazy(r.value.source, RootOf(header)).state
  {
    hide OpenLazy, Evlrs.LazySection;
    if header.offsetToPointData < LAS_HEADER_SIZE_14 {
      return Err(InvalidData);
    }
    if header.offsetToPointData - LAS_HEADER_SIZE_14 > MAX_VLR_SECTION_BYTES {
      return Err(InvalidData);
    }
    if header.rootSize > MAX_HIERARCHY_PAGE_BYTES {
      return Err(InvalidData);
    }
    var section := Evlrs.LazySection(bytes, header.rootOffset, header.rootSize);
    if section.Err? {
      return Err(InvalidData);
    }
    var ranges := RangesOf(header, section.value);
    if ranges.Err? {
      return Err(InvalidData);
    }
    var reader := new CopcRangeReader(Source(Env(bytes, ranges.value), header.info, header.numberOfPoints));
    var ok := reader.Open(RootOf(header));
    if !ok {
      return Err(InvalidData);
    }
    return Ok(reader);
  }

  // The two agree -----------------------------------------------------------

  /** On a file the eager reader opens, the lazy reader sees the same sections exactly when its VLRs are not too many. */
  lemma SameSource(bytes: seq<byte>, header: Header)
    requires EagerOpen(bytes, header).Ok?
    ensures var input := InputOf(bytes, header).value;
      && NewDataRanges(input).Ok? && Root(input) == RootOf(header) && OpenHierarchy(input).Ok?
      && (SourceOf(bytes, header).Ok? <==> VlrSectionFits(header))
      && (SourceOf(bytes, header).Ok? ==>
            SourceOf(bytes, header).value == Source(Env(bytes, NewDataRanges(input).value), header.info, header.numberOfPoints))
  {
    hide Evlrs.EagerSection, Evlrs.LazySection, Evlrs.RootIsDeclared, LoadAll, WholeAccepted;
    Evlrs.SectionsAgree(bytes, header.offsetToFirstEvlr, header.numberOfEvlrs, header.rootOffset, header.rootSize);
    SectionIsRoot(bytes, header);
  }

  /** The pages of a file the eager reader opens form a tree. */
  ghost predicate TreeShaped(bytes: seq<byte>, header: Header) {
    && EagerOpen(bytes, header).Ok?
    && var input := InputOf(bytes, header).value;
      NewDataRanges(input).Ok? && Tidy(Env(bytes, NewDataRanges(input).value), Root(input), EagerOpen(bytes, header).value.fetched)
  }

  /**
   A file the eager reader opens, whose pages form a tree, opens lazily exactly when its VLR section is within the lazy
   reader's limit; the lazy reader then knows the same sections and has the root's child pages pending.
   */
  lemma EagerOpensLazily(bytes: seq<byte>, header: Header)
    requires TreeShaped(bytes, header)
    ensures LazyOpens(bytes, header) <==> VlrSectionFits(header)
    ensures LazyOpens(bytes, header) ==>
      && OpensAsTree(InputOf(bytes, header).value, SourceOf(bytes, header).value)
      && OpenLazy(SourceOf(bytes, header).value, RootOf(header)).state.pending
         == PageChildren(SourceOf(bytes, header).value.env, RootOf(header))
  {
    hide InputOf, SourceOf, OpenHierarchy, OpenLazy, Tidy, PageChildren, NewDataRanges, Openable, Ready;
    SameSource(bytes, header);
    if VlrSectionFits(header) {
      var input, src := InputOf(bytes, header).value, SourceOf(bytes, header).value;
      InputFields(bytes, header);
      TreeIsOpenable(input, src);
      OpenIsReady(src, EagerOf(input), []);
    }
  }

  lemma InputFields(bytes: seq<byte>, header: Header)
    requires InputOf(bytes, header).Ok?
    ensures var input := InputOf(bytes, header).value;
      input.bytes == bytes && input.numberOfPoints == header.numberOfPoints && Root(input) == RootOf(header)
      && EagerOpen(bytes, header) == OpenHierarchy(input)
  {
    hide Evlrs.EagerSection, OpenHierarchy;
  }

  /** The lazy reader does not look at the EVLR count: it opens the same file when the header declares none. */
  lemma UndeclaredHierarchy(bytes: seq<byte>, header: Header)
    requires LazyOpens(bytes, header)
    ensures var bare := header.(numberOfEvlrs := 0); LazyOpens(bytes, bare) && EagerOpen(bytes, bare).Err?
  {
    hide OpenLazy, Evlrs.LazySection;
    var bare := header.(numberOfEvlrs := 0);
    assert SourceOf(bytes, bare) == SourceOf(bytes, header) && RootOf(bare) == RootOf(header);
    assert Evlrs.FirstHierarchy([]).None?;
  }

  // Written files -----------------------------------------------------------

  /** The body starts with a LAS header, and its EVLRs are the hierarchy and then the source's records. */
  ghost predicate HasHeaders(body: Body, description: seq<byte>, others: seq<Evlrs.Evlr>) {
    && |body.prefix| >= 375
    && (forall size: nat :: size <= UINT64_MAX ==>
          body.evlrHeader(size) == Evlrs.EvlrHeaderBytes(Evlrs.COPC_USER_ID, Evlrs.COPC_HIERARCHY_RECORD_ID, size, description))
    && Evlrs.Sized(others) && body.trailer == Evlrs.EvlrsBytes(others)
    && 1 + |others| <= 4096
  }

  /** The header the writer patches in at the end. */
  ghost function WrittenHeader(input: CopcInput, others: seq<Evlrs.Evlr>, info: CopcInfo): Header
    requires 1 + |others| <= UINT32_MAX
  {
    Header(input.offsetToPointData, input.offsetToFirstEvlr, 1 + |others|, input.numberOfPoints, input.rootOffset, input.rootSize, info)
  }

  lemma HierarchyIdentity()
    ensures Evlrs.IsHierarchy(Evlrs.Pad(Evlrs.COPC_USER_ID, 16), Evlrs.COPC_HIERARCHY_RECORD_ID)
  {
    var padded := Evlrs.Pad(Evlrs.COPC_USER_ID, 16);
    assert padded[0] == 99 && padded[1] == 111 && padded[2] == 112 && padded[3] == 99 && padded[4] == 0;
    assert Evlrs.TrimNul(padded[4..]) == [];
    assert Evlrs.TrimNul(padded[3..]) == [99] by {
      assert padded[3..][1..] == padded[4..];
    }
    assert Evlrs.TrimNul(padded[2..]) == [112, 99] by {
      assert padded[2..][1..] == padded[3..];
    }
    assert Evlrs.TrimNul(padded[1..]) == [111, 112, 99] by {
      assert padded[1..][1..] == padded[2..];
    }
  }

  /** The hierarchy EVLR of a written file as a record. */
  ghost function HierarchyEvlr(description: seq<byte>, image: seq<byte>): Evlrs.Evlr {
    Evlrs.Evlr(Evlrs.COPC_USER_ID, Evlrs.COPC_HIERARCHY_RECORD_ID, description, image)
  }

  /** A finished file, split at its EVLRs. */
  lemma WrittenEvlrs(body: Body, page: Page, input: CopcInput, description: seq<byte>, others: seq<Evlrs.Evlr>) returns (image: seq<byte>)
    requires body.Wrote(page, input) && HasHeaders(body, description, others)
    ensures |image| == TreeBytes(page) <= UINT64_MAX && Evlrs.Sized([HierarchyEvlr(description, image)] + others)
    ensures input.bytes == body.Front() + Evlrs.EvlrsBytes([HierarchyEvlr(description, image)] + others)
  {
    hide NodesFit, NodeEntries, Packed, PlanOf, TreeBytes, Laid, Image, Writable, Body.Front, Evlrs.EvlrHeaderBytes, Evlrs.EvlrsBytes;
    var root := |body.Front()| + LAS_EVLR_HEADER_BYTES;
    LaidKeepsEntries(page, root);
    image := Image(Laid(page, root), root);
    var first := HierarchyEvlr(description, image);
    assert input.bytes == body.Front() + body.evlrHeader(TreeBytes(page)) + image + body.trailer;
    FirstThenOthers(first, others);
    assert body.evlrHeader(TreeBytes(page)) + image == first.Bytes();
    assert input.bytes == body.Front() + (first.Bytes() + Evlrs.EvlrsBytes(others));
  }

  lemma FirstThenOthers(first: Evlrs.Evlr, others: seq<Evlrs.Evlr>)
    requires |first.data| <= UINT64_MAX && Evlrs.Sized(others)
    ensures Evlrs.Sized([first] + others)
    ensures Evlrs.EvlrsBytes([first] + others) == first.Bytes() + Evlrs.EvlrsBytes(others)
  {
    assert ([first] + others)[1..] == others;
  }

  lemma FirstRecord(first: Evlrs.Evlr, others: seq<Evlrs.Evlr>, at: nat)
    requires Evlrs.Sized([first] + others) && Evlrs.IsHierarchy(Evlrs.Pad(first.userId, 16), first.recordId)
    ensures |first.data| <= UINT64_MAX
    ensures Evlrs.FirstHierarchy(Evlrs.RefsFrom([first] + others, at)) == Some(first.Ref(at))
  {
    hide Evlrs.IsHierarchy, Evlrs.Pad;
    assert ([first] + others)[0] == first;
  }

  /** The header of a finished file leads the reader to the hierarchy that was written. */
  lemma WrittenHeaderLeads(body: Body, page: Page, input: CopcInput, description: seq<byte>, others: seq<Evlrs.Evlr>, info: CopcInfo)
    requires body.Wrote(page, input) && HasHeaders(body, description, others) && |input.bytes| <= UINT64_MAX
    ensures InputOf(input.bytes, WrittenHeader(input, others, info)) == Ok(input)
  {
    hide NodesFit, NodeEntries, Packed, PlanOf, TreeBytes, WroteHierarchy, Body.Front, Body.Untrailed, Evlrs.EvlrsFrom, Evlrs.EvlrsBytes,
      Evlrs.IsHierarchy, Evlrs.Pad, Evlrs.FirstHierarchy, Evlrs.RefsFrom, Section, HoldsTree;
    WroteShape(body, page, input);
    PageIsSmall(page, body.Entries());
    var image := WrittenEvlrs(body, page, input, description, others);
    var first := HierarchyEvlr(description, image);
    var all := [first] + others;
    assert input.bytes == body.Front() + Evlrs.EvlrsBytes(all) + [];
    Evlrs.ChainReadsBack(input.bytes, body.Front(), all, []);
    HierarchyIdentity();
    FirstRecord(first, others, body.EvlrStart());
    SomeSection(body);
    SectionFound(input.bytes, WrittenHeader(input, others, info), Evlrs.RefsFrom(all, body.EvlrStart()), first.Ref(body.EvlrStart()));
  }

  lemma SomeSection(body: Body)
    requires body.Fits()
    ensures body.EvlrStart() > 0
  {
    hide NodesFit, Packed;
  }

  lemma SectionFound(bytes: seq<byte>, header: Header, refs: seq<Evlrs.EvlrRef>, root: Evlrs.EvlrRef)
    requires header.offsetToPointData >= LAS_HEADER_SIZE_14 && header.offsetToFirstEvlr > 0 && 0 < header.numberOfEvlrs <= Evlrs.MAX_EVLR_COUNT
    requires Evlrs.EvlrsFrom(bytes, header.offsetToFirstEvlr, header.numberOfEvlrs) == Ok(refs)
    requires Evlrs.FirstHierarchy(refs) == Some(root) && root.dataOffset == header.rootOffset && header.rootSize <= root.dataLen
    ensures InputOf(bytes, header) == Ok(CopcInput(bytes, header.offsetToPointData, header.offsetToFirstEvlr, header.numberOfPoints,
      header.rootOffset, header.rootSize, header.rootOffset, root.dataLen))
  {
    hide Evlrs.EvlrsFrom, Evlrs.FirstHierarchy;
  }

  /**
   From the header alone: a finished file opens eagerly exactly when it is within the reader's two size limits, and such a
   file opens lazily exactly when its VLR section is within the lazy reader's limit as well.
   */
  lemma WrittenFileOpensFromHeader(body: Body, page: Page, input: CopcInput, description: seq<byte>, others: seq<Evlrs.Evlr>, info: CopcInfo)
    requires body.Valid() && body.Wrote(page, input) && Sum(Counts(body.nodes)) == body.points
    requires HasHeaders(body, description, others) && |input.bytes| <= UINT64_MAX
    ensures var header := WrittenHeader(input, others, info);
      && (EagerOpen(input.bytes, header).Ok? <==> WithinReaderLimits(body, page))
      && (EagerOpen(input.bytes, header).Ok? ==> (LazyOpens(input.bytes, header) <==> VlrSectionFits(header)))
  {
    hide Body.Wrote, Body.Valid, WithinReaderLimits, OpenHierarchy, InputOf, LazyOpens, LoadAll, Openable, Tidy, LoadedExactly,
      PagesNested;
    var header := WrittenHeader(input, others, info);
    WrittenHeaderLeads(body, page, input, description, others, info);
    InputFields(input.bytes, header);
    WrittenFileOpensExactly(body, page, input);
    if WithinReaderLimits(body, page) {
      WrittenTreeShaped(body, page, input, header);
      EagerOpensLazily(input.bytes, header);
    }
  }

  lemma WrittenTreeShaped(body: Body, page: Page, input: CopcInput, header: Header)
    requires body.Valid() && body.Wrote(page, input) && Sum(Counts(body.nodes)) == body.points && WithinReaderLimits(body, page)
    requires InputOf(input.bytes, header) == Ok(input)
    ensures TreeShaped(input.bytes, header)
  {
    hide Body.Valid, WithinReaderLimits, OpenHierarchy, InputOf, LoadAll, Openable, Tidy, LoadedExactly, PagesNested, WroteHierarchy,
      ChunkWriter.Section;
    WrittenFileOpens(body, page, input);
    WroteNumbers(body, page, input);
    WrittenFileIsTidy(body, page, input, Source(EnvOf(input), header.info, body.points));
  }

  lemma WroteNumbers(body: Body, page: Page, input: CopcInput)
    requires body.Wrote(page, input)
    ensures input.evlrOffset + input.evlrLen <= UINT64_MAX && input.offsetToPointData <= input.offsetToFirstEvlr
    ensures NewDataRanges(input) == Ok(EnvOf(input).ranges) && EnvOf(input).bytes == input.bytes
  {
    hide Body.Untrailed, NodesFit, NodeEntries, Packed, PlanOf, TreeBytes, ChunkWriter.Section, Image, Writable, Laid;
  }

  /** A file the writer finishes and only the eager reader opens: its VLR section is over the lazy reader's limit. */
  lemma LongVlrsOpenOnlyEagerly(prefix: seq<byte>, chunk: seq<byte>, count: nat, info: CopcInfo)
    returns (body: Body, page: Page, input: CopcInput, header: Header)
    requires 375 + 67108864 < |prefix| <= UINT32_MAX
    requires 0 < |chunk| <= 536870912 && 1 <= count <= INT32_MAX
    ensures body.prefix == prefix && body.Valid() && body.Wrote(page, input) && header == WrittenHeader(input, [], info)
    ensures EagerOpen(input.bytes, header).Ok? && !LazyOpens(input.bytes, header)
  {
    hide OpenHierarchy, Body.Wrote, Body.Valid, EagerOpen, LazyOpens, Sum;
    var laz := Laz(_ => Ok([]), _ => chunk, _ => []);
    var evlrHeader := (size: nat) =>
      if size <= UINT64_MAX then Evlrs.EvlrHeaderBytes(Evlrs.COPC_USER_ID, Evlrs.COPC_HIERARCHY_RECORD_ID, size, []) else [];
    body := Body(prefix, laz, [RootNode(count)], evlrHeader, [], count);
    assert laz.Chunk(RootNode(count)) == chunk;
    OneNodeFits(body, count);
    page, input := OneNodeOpensExactly(body, count);
    header := WrittenHeader(input, [], info);
    assert HasHeaders(body, [], []);
    WrittenFileOpensExactly(body, page, input);
    WrittenFileOpensFromHeader(body, page, input, [], [], info);
  }
}
