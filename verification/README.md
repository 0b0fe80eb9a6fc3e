# A verified model of the COPC octree index

A COPC file stores a point cloud as an octree of independently compressed chunks. Its hierarchy is a tree of pages of
32-byte entries, from a voxel key to a chunk, to a further page, or to nothing. This project follows that index from the
writer to the reader:

1. **Building** (`Lod`, `LodShape`, `LodExact`, `Dealing`, `LodIndexBuild`): points are split by octant, a node keeps a round-robin
   selection of its run, the leftovers go to its children. The builder object appends to an order file and a node list.
2. **Encoding** (`PointRecord`, `EncodeNode`, `ChunkWriter`, `Spill`): point records, node buffers, consecutive chunks, and
   the spill store streamed points pass through.
3. **Paging** (`PagePlan`, `HierarchyPages`, `PageLayout`, `Codec`): entries are planned into pages, laid out in pre-order
   and written.
4. **Loading** (`Evlrs`, `Opening`, `Loader`, `LoaderFacts`, `ChunkRanges`): the walk over the EVLR headers, and the worklist
   that rediscovers the pages from arbitrary bytes under a byte budget, with the interval map that rejects overlapping chunks.
5. **Querying** (`Selection`, `Requests`, `RangeReader`, `LazyEager`, `LazyRuns`, `LazyAccounts`, `Coalesce`, `Columns`,
   `ColumnContents`, `PointRows`):
   chunk selection by level and box, the lazy reader, when its queries succeed (`LazyReady`, `LazyRounds`, `LazyQueries`) and
   what a failed one costs (`LazyLosses`, `LazyFailures`), coalesced reads, decoding into columns and rows.
6. **Both ends together** (`RoundTrip`, `WrittenTrees`, `WrittenTidy`, `WrittenQueries`, `HierarchyFile`, `WriteOpen`,
   `OpenLimits`, `OneNodeFiles`, `EncodeNode`, `ReadBack`).
7. **In plain numbers** (`Words`, `Layouts`, `ReaderLimits`, and the lemmas named `...InNumbers` and `...Exactly`): what the
   specifications above come to byte by byte, level by level and limit by limit, stated without them.
8. The creation date (`Calendar`).

The strongest statements are `ReadBack.QueryReadsExactlyTheBox` (a column read of a written file returns exactly the rows of
the points the query asks for, each once), `LazyRuns.LazyRefinesEager` (any run of successful lazy queries agrees with the
eager reader and fetches exactly the pages some query reached), `LazyQueries.LazyQueryOkExactly` and
`LazyLosses.FailedQueryHarmlessExactly` (exactly when a lazy query succeeds, and exactly when one that failed changes a later
answer), `WrittenQueries.WrittenFullQueryExactly` (exactly which written files a lazy reader can read in one query) and
`Opening.WrittenFileOpensFromHeader` (exactly which written files open, eagerly and lazily).

## Where the code does less than one might expect

* **A lazy query can fail on a legal file.** `load_page` compares the point total with the header as soon as no page is
  pending (`copc-reader/src/ranged.rs:360`), but pages of the same round still wait in a local list. `FullQueryCanFail` gives a
  file with two leaf pages, after any 800 bytes of header, VLRs and point data, that the eager reader opens and on which the
  first lazy query for everything fails. `LazyQueryOkExactly` gives the exact condition after any run of successful queries on
  any file whose pages form a tree: a well-formed query succeeds if and only if each of its frontiers leaves a pending page
  out of reach, or has a first page that points at further pages, or has no points below its later pages. The frontiers are a
  function of the file and the queries so far. `WrittenFileIsTidy` shows that the writer's files are covered, and
  `WrittenFullQueryExactly` works the condition out for them: the first query for everything succeeds if and only if every
  depth of the page tree has at most one page or a first page with children.
* **A failed query loses pages.** The page that failed counts as visited and the rest of its round is dropped; later queries
  succeed, without the chunks below those pages. `FailedQueryHarmlessExactly` says which pages they are (those in reach of the
  first frontier that does not pass, after its first), that every later answer is the eager one without the chunks below
  them, and hence that it is the same if and only if the later query matches none of those chunks. A query with a bad level
  range drops every pending page, with the same consequence (`BadLevelHarmlessExactly`). `FullQueryCanFail` and
  `BadLevelLosesChunks` are the inputs. The agreement of the two readers is therefore stated for runs without a failed query.
* **The writer does not enforce the reader's limits.** Chunks above 512 MiB and hierarchies above 256 MiB can be written but
  not opened. `OversizedChunkIsRefused` is such a file, of one node; `WrittenFileOpensExactly` shows there is no third reason,
  and `HierarchyOpensExactly` is the same for any entries.
* **The two readers open different files.** The lazy reader refuses a VLR section above 64 MiB, which the eager reader and the
  writer allow (`LongVlrsOpenOnlyEagerly`), and looks only at the EVLR header in front of the root page, so that it opens files
  whose header does not declare that record (`UndeclaredHierarchy`). `SectionsAgree` and `EagerOpensLazily` are exact.
* **A bounded query sees quantized points.** Pruning goes by the voxels of the original coordinates, the row filter by the
  decoded ones. On the file's grid this returns exactly the points in the box (`QueryReadsExactlyTheBox`); off it a point of the
  box can be missed (`OffGridPointLeavesBox`), and is exactly when its row has left the box (`BoxPointReturned`).
* **An empty range of levels still loads pages.** `LevelMinMax` with equal ends selects no chunk, yet the lazy reader loads every
  page above that level the box meets; in every other case a page is loaded only when a level at or below it is asked for
  (`LooksBelowExactly`).
* **The size hint outlives an error.** A record that fails ends the row iteration without being counted off, so the hint stays
  above zero while every later call returns nothing (`HintIsRowsLeft`, `PointIter.Next`).
* **Classification 12 reads back as 1** (`copc-reader/src/points.rs:540-544`), and overlap comes from its flag bit alone,
  although the comment at `copc-reader/src/points.rs:472` says otherwise. `PointRoundTrip` has both directions.
* **Coincident points** fail the build exactly when there are more than 31 node budgets of them (`CoincidentRunFailsExactly`);
  no source of at most 31 budgets fails (`SmallRunsSucceed`), and any failure means that a level-30 voxel holds more points
  than a node may (`FailureMeansCrowdedVoxel`).

## Reading the model

Files are byte sequences, runs of indices are sequences of naturals, coordinates are exact reals. Machine widths are subset
types (`Core`), so every narrowing is a proof. An object whose methods update it is a class (`LodIndexBuilder`, `Output`,
`CopcRangeReader`, `ColumnBuilders`, `PointIter`, `SpillWriter`); each method is tied to a specification function, and the
lemmas are about those functions. The compressor is a parameter. Recursive specifications are hidden (`hide`) where a proof
needs only one unfolding of them, which keeps every proof small.

## Model

| member | source | states |
|---|---|---|
| Voxel.ChildExactly | copc-core/src/hierarchy.rs:24-48 | exactly when `child` succeeds, on every key and octant, and the child it gives: x takes the lowest bit, then y, then z |
| Voxel.UnderOneChild | copc-writer/src/hierarchy_pages.rs:161-169 | a strictly deeper key of a subtree lies under exactly one child octant, the one its bits name |
| Bounds.OctantIsChildVoxel | copc-core/src/bounds.rs:52-73 | halving a voxel's box by octant is the closed-form box of the child key: writer and reader describe the same boxes |
| Bounds.VoxelNests | copc-reader/src/points.rs:1144-1158 | the box of a key lies in the box of every key above it |
| Bounds.CubeCoversBounds | copc-writer/src/lod.rs:327-338 | the cube is centred on the declared bounds, its half size is the widest half extent or a millionth, and no smaller cube covers them |
| Dealing.DealIsFair | copc-writer/src/lod.rs:225-269 | the selection takes min(budget, points) indices, a prefix of each octant, and an octant is never more than one ahead of one that is not exhausted |
| Dealing.FairUnique | copc-writer/src/lod.rs:225-269 | with ties to the lower octant, fairness determines the counts |
| Dealing.DealConserves | copc-writer/src/lod.rs:225-269 | the selection is a permutation of the taken prefixes |
| LodExact.PartKeepsOrder | copc-writer/src/lod.rs:175-223 | an octant's part is the run's points of its half spaces, a point on a middle plane in the upper one, each once and in run order |
| LodExact.NodeKeepsFairShare | copc-writer/src/lod.rs:97-152 | at every length, the front of what a split node keeps has the front of each octant's part, no unexhausted octant more than one behind |
| Lod.RoundsAreDeals | copc-writer/src/lod.rs:225-269 | going round the octants serves the least-served octant every time |
| Lod.LodIndexBuilder.PartitionIndexRun | copc-writer/src/lod.rs:175-223 | splits a run into the eight octants' runs, each in run order |
| Lod.LodIndexBuilder.AppendLodSelectionToOrder | copc-writer/src/lod.rs:225-269 | the round-robin loop appends exactly the fair selection and stops |
| Lod.LodIndexBuilder.Assign | copc-writer/src/lod.rs:97-152 | what a subtree appends is exactly `LodOrder` and `LodNodes` of its run, a permutation tiled by its nodes, tree-shaped and inside its voxels; it fails exactly on runs that stay too big at level 30 |
| LodShape.TilesCoverOnce | copc-writer/src/lod.rs:97-152 | node ranges that tile the order file cover each slot exactly once |
| LodShape.FinishTree | copc-writer/src/lod.rs:97-152 | a full node over its children's subtrees keeps keys distinct, valid, closed under parent, and interior nodes full |
| LodIndexBuild.BuildLodIndex | copc-writer/src/lod.rs:43-84 | succeeds exactly when sizes fit and no run is overfull, and then returns exactly the specified order and nodes, with sorted nodes, permutation, single cover, tree shape, counts and containment |
| LodIndexBuild.EveryPointInOneNode | copc-writer/src/lod.rs:97-152 | every source point is in exactly one slot of exactly one node |
| LodIndexBuild.IndexInNumbers | copc-writer/src/lod.rs:43-84 | nodes ascend by level, x, y, z; levels end at 30; each has at most a budget of points in whole 4-byte slots |
| LodIndexBuild.FailureMeansCrowdedVoxel | copc-writer/src/lod.rs:116-121 | the build fails only when one level-30 voxel holds more points than a node may |
| LodIndexBuild.CoincidentPointsFail | copc-writer/src/lod.rs:97-152 | more coincident points in a run than the remaining levels can absorb always fail the build |
| LodIndexBuild.SmallRunsSucceed | copc-writer/src/lod.rs:97-152 | a run of at most one budget per remaining level never fails, wherever its points are |
| LodIndexBuild.CoincidentRunFailsExactly | copc-writer/src/lod.rs:97-152 | a run of coincident points fails exactly when it exceeds one budget per remaining level |
| LodIndexBuild.CoincidentSource | copc-writer/src/lod.rs:97-152 | a source of coincident points can be indexed exactly when there are at most 31 budgets of them |
| Codec.WriteLe | copc-core/src/hierarchy.rs:151-168 | fills exactly the 32 bytes of a valid entry, and leaves the buffer alone otherwise |
| Codec.EntryRoundTrip | copc-core/src/hierarchy.rs:170-193 | a valid entry reads back from its bytes |
| Codec.EntryReadsOnlyItsBytes | copc-core/src/hierarchy.rs:170-193 | only the bytes of an entry read back as it |
| Layouts.EntryLayout | copc-core/src/hierarchy.rs:88-193 | exactly which 32 bytes are an entry, and which field each of them is |
| Codec.PageRoundTrip | copc-core/src/hierarchy.rs:213-226 | a page of valid entries reads back from its bytes |
| PagePlan.FindOctant | copc-writer/src/hierarchy_pages.rs:44-63 | the child search finds an octant exactly for keys of the subtree, and it is the key's octant |
| PagePlan.PlanHierarchyPages | copc-writer/src/hierarchy_pages.rs:23-93 | succeeds exactly when there are entries and an oversized page's entries lie under its key; for distinct keys up to 4096 entries are one page in the order given, more are the page's own entry and one page per octant with entries, in octant order; every entry is on exactly one page; terminates |
| HierarchyPages.AssignOffsets | copc-writer/src/hierarchy_pages.rs:95-110 | assigns pre-order offsets, failing exactly on overflow of 64 bits |
| HierarchyPages.WritePageTree | copc-writer/src/hierarchy_pages.rs:119-145 | writes exactly the tree's image, and succeeds exactly on trees laid out for the stream's position |
| PageLayout.LaidWritable | copc-writer/src/hierarchy_pages.rs:119-145 | the writer's position check never fails on a laid-out plan |
| PageLayout.LaidTiles | copc-writer/src/hierarchy_pages.rs:95-110 | assigned pages tile the bytes from the root offset to the returned end in pre-order |
| ChunkRanges.NeighbourCheckExact | copc-reader/src/lib.rs:499-528 | looking at the two neighbours accepts a chunk exactly when it is disjoint from every stored one, and keeps the map disjoint |
| ChunkRanges.InsertRangesExact | copc-reader/src/lib.rs:487-497 | inserting a list succeeds exactly when its chunks are pairwise disjoint |
| Loader.QueueHierarchyPage | copc-reader/src/lib.rs:426-465 | the two loops over a page compute the insert-then-queue specification, including which pages are refused |
| Loader.InsertHierarchyPages | copc-reader/src/lib.rs:394-424 | the worklist loop computes the specified run and terminates on any bytes |
| Loader.OpenFile | copc-reader/src/lib.rs:122-156 | from the hierarchy section on, opening succeeds exactly when the specified load and whole-file checks do |
| Evlrs.ReadEvlrRefs | copc-reader/src/lib.rs:861-935 | the loop over the declared EVLR headers finds the specified records, and fails exactly when one does not lie in the file or has a reserved field |
| Evlrs.DeclaredInNumbers | copc-reader/src/lib.rs:861-885 | no record for a zero offset or count, an error above 4096, else the walk |
| Evlrs.EvlrInNumbers | copc-reader/src/lib.rs:885-922 | exactly which bytes are a record: 60 bytes of header with a zero word, a length that keeps the data in the file, and each field's place |
| Evlrs.LazySectionInNumbers | copc-reader/src/ranged.rs:417-450 | the lazy reader's section check, byte by byte |
| Evlrs.WrittenHeaderInNumbers | copc-writer/src/las_out.rs:226-251 | every byte of a written EVLR header |
| Evlrs.SectionsAgree | copc-reader/src/ranged.rs:417-450 | eager walk and lazy check find the same section, and the eager one finds it exactly when the lazy one does and the header declares that record before any other of its identity |
| Evlrs.ChainReadsBack | copc-writer/src/las_out.rs:226-293 | records written one after another are walked back, each at its offset with its length |
| Opening.OpenEagerly | copc-reader/src/lib.rs:115-156 | from header fields and bytes, opening succeeds exactly when the section is found and the specified load and checks succeed |
| Opening.OpenLazily | copc-reader/src/ranged.rs:134-180 | the lazy opening succeeds exactly when the VLR limit, the section check and the root page's load do, and returns the reader in that state |
| Opening.EagerOpensLazily | copc-reader/src/ranged.rs:134-180 | a file the eager reader opens, whose pages form a tree, opens lazily exactly when its VLR section is within the lazy limit, with the root's child pages pending |
| Opening.UndeclaredHierarchy | copc-reader/src/ranged.rs:417-450 | whatever opens lazily opens with an EVLR count of zero too, and then not eagerly |
| LoaderFacts.ReadsAreBounded | copc-reader/src/lib.rs:277-290 | no run takes more than 2^23 page reads, because each costs 32 bytes of the budget |
| LoaderFacts.LoadAllComplete | copc-reader/src/lib.rs:394-465 | a finished load holds exactly the entries of the pages reachable from the root |
| LoaderFacts.OpenIsSafe | copc-reader/src/lib.rs:467-585 | in an opened file chunks are disjoint, inside the point data, no larger together than it, and count the header's points |
| ReaderLimits.FreshPageLoads | copc-reader/src/lib.rs:362-465 | a page of new keys loads exactly when it is sized in entries, at most 64 MiB, within 256 MiB in all and in the file, and each entry lies in its section and within 512 MiB |
| ReaderLimits.LazyPageInNumbers | copc-reader/src/ranged.rs:303-359 | the lazy reader loads an unread page only under the same numbers |
| ReaderLimits.OpenIsBounded | copc-reader/src/lib.rs:277-291 | in an opened file every page lies in the hierarchy section, none is read twice, and they have at most 256 MiB |
| RoundTrip.InsertDistinct | copc-reader/src/lib.rs:426-465 | a page of accepted entries with distinct keys is inserted whole |
| RoundTrip.StageStep | copc-reader/src/lib.rs:394-465 | one worklist turn on a written page succeeds and leaves its children standing in its place |
| RoundTrip.TreeLoadsBack | copc-writer/src/hierarchy_pages.rs:119-145 | the page-tree round trip: a written tree loads back as exactly its point entries, plus child-page entries only at keys without one |
| RoundTrip.ExactIsAccepted | copc-reader/src/lib.rs:467-528 | a hierarchy loaded exactly passes the whole-file checks when chunks are disjoint and add up |
| Selection.SelectPointChunksFrom | copc-reader/src/points.rs:1009-1048 | the loop and sort compute the specified selection, with its errors |
| Selection.SelectMembers | copc-reader/src/points.rs:1009-1048 | exactly the matching entries are selected, in file order |
| Requests.SelectExactly | copc-reader/src/points.rs:1009-1127 | in terms of the query alone: which selections are refused, and otherwise every chunk of the levels asked for whose voxel shares a point with the box, as often as listed, by offset |
| Requests.LooksBelowExactly | copc-reader/src/ranged.rs:374-379 | the reader looks below a page exactly when a level at or below it is asked for, or the range of levels is empty |
| Requests.PageMayMatchExactly | copc-reader/src/ranged.rs:374-386 | the page test in terms of the query alone: the level it looks below, and a point shared by voxel and box |
| Selection.SelectedChunksFollow | copc-reader/src/points.rs:1046 | chunks selected from a disjoint hierarchy follow one another in the file |
| Selection.SameMatchesSameSelection | copc-reader/src/points.rs:1009-1048 | hierarchies with the same matching entries select the same sequence, whatever else they hold |
| Selection.PointKeepsChunk | copc-reader/src/points.rs:1036-1041 | pruning by box never drops a chunk whose voxel holds a point of the box |
| RangeReader.CopcRangeReader.Open | copc-reader/src/ranged.rs:171-179 | opening loads the root page into an empty reader |
| RangeReader.CopcRangeReader.AddPage | copc-reader/src/ranged.rs:303-368 | loading a page has exactly the specified effect on every field, also when it fails half way |
| RangeReader.CopcRangeReader.EnsureHierarchyFor | copc-reader/src/ranged.rs:282-301 | the loop over rounds computes the specified outcome and terminates |
| RangeReader.CopcRangeReader.EntriesFor | copc-reader/src/ranged.rs:192-196 | a query's new state and result are the specified ones |
| LazyEager.ReachMonotone | copc-reader/src/ranged.rs:374-385 | what a query can reach it can reach through every page above |
| LazyEager.QueryAgrees | copc-reader/src/ranged.rs:192-196 | one successful query on a reader in order returns what eager selection returns, and keeps it in order |
| LazyRuns.LazyRefinesEager | copc-reader/src/ranged.rs:192-196 | every query of a run that succeeded returns the eager sequence; the pages fetched are exactly the root and those some query calls for: a level it looks below, and a point shared by voxel and box |
| LazyAccounts.BooksBalance | copc-reader/src/ranged.rs:328-359 | over any successful run the interval map holds exactly the loaded chunks, the total is their sum and at most the header's |
| LazyReady.LoadAllReadable | copc-reader/src/lib.rs:277-290 | the eager load reads each page once, within the budget |
| LazyReady.OpenedIsOpenable | copc-reader/src/lib.rs:105-164 | what an eager open has established about a file |
| LazyRounds.FullyLoaded | copc-reader/src/ranged.rs:282-301 | a lazy reader with nothing pending holds the eager hierarchy |
| LazyRounds.OpenIsReady | copc-reader/src/ranged.rs:171-179 | on a file the eager reader opens, whose pages form a tree, loading the root page succeeds; the root's child-page entries are then pending |
| LazyRounds.RoundLoadsExactly | copc-reader/src/ranged.rs:294-368 | exactly when a round of page loads succeeds, and what is pending after it |
| LazyQueries.LazyQueryOkExactly | copc-reader/src/ranged.rs:192-196 | after any run of successful queries, exactly when the next query succeeds, as a test of the frontiers that the file, those queries and this one determine |
| LazyLosses.FailedQueryHarmlessExactly | copc-reader/src/ranged.rs:282-368 | after any run of successful queries, which pages a query that fails loses, what every later query then answers, and exactly when that is the eager answer |
| LazyLosses.BadLevelHarmlessExactly | copc-reader/src/ranged.rs:286-293 | the same after a bad level range, which loses every pending page |
| LazyFailures.FullQueryCanFail | copc-reader/src/ranged.rs:360-366 | a legal file, whatever its first 800 bytes, on which the first full query fails and the second silently misses a chunk |
| LazyFailures.FailureFollows | copc-reader/src/ranged.rs:360-366 | the exact condition, applied to that file, predicts the failure |
| LazyFailures.BadLevelLosesChunks | copc-reader/src/ranged.rs:286-293 | on the same file a negative level fails and a later query for everything succeeds without the file's chunks |
| Coalesce.CoalesceChunks | copc-reader/src/ranged.rs:394-415 | the loop computes the greedy grouping |
| Coalesce.CoalescedIsGrouping | copc-reader/src/ranged.rs:394-415 | groups concatenate to the chunks, span them exactly, link near neighbours, and pass the cap only with a single chunk |
| Coalesce.WasteIsBounded | copc-reader/src/ranged.rs:394-415 | unwanted bytes are at most one gap for every chunk that shares a group |
| Coalesce.CoalescedIsOptimal | copc-reader/src/ranged.rs:394-415 | no order-preserving grouping under the same rules has fewer groups |
| Coalesce.GroupsFormGrouping | copc-reader/src/ranged.rs:394-415 | the greedy groups are such a grouping |
| Coalesce.CoalescedIsGreedy | copc-reader/src/ranged.rs:394-415 | no group could have taken the next group's first chunk: it starts past the gap or ends past the cap |
| Coalesce.ReadChunks | copc-reader/src/ranged.rs:222-229 | fetching groups and slicing them returns what one read per chunk would, and fails exactly when it would |
| Coalesce.SliceIsDirectRead | copc-reader/src/ranged.rs:452-472 | a slice of a fetched group is a direct read of the chunk |
| Coalesce.SelectedInOrder | copc-reader/src/points.rs:1046 | what selection returns from an opened file is fit for grouping |
| ChunkWriter.CompressNodes | copc-writer/src/writer.rs:635-704 | the sequential writer produces the specified section and entries, failing exactly when a node or the table offset does not fit; the word in front leads to the table behind the chunks, which lists each entry's points and bytes |
| ChunkWriter.CompressNodesInBatches | copc-writer/src/writer.rs:717-817 | the batched writer produces the same section, entries and table, for every batch size |
| ChunkWriter.ChunksConsecutive | copc-writer/src/writer.rs:645-704 | chunks follow one another without gap and hold their node's bytes |
| ChunkWriter.ChunksApart | copc-writer/src/writer.rs:645-704 | the recorded chunks are pairwise disjoint |
| ChunkWriter.EntriesCount | copc-writer/src/writer.rs:619-628 | the recorded counts add up to the nodes' |
| HierarchyFile.WriteHierarchy | copc-writer/src/writer.rs:440-466 | plans, lays out and writes any storable entries behind the EVLR header, failing only without an entry or past 64-bit offsets |
| HierarchyFile.HierarchyOpens | copc-reader/src/lib.rs:105-164 | a file holding the planned tree of any valid entries at distinct keys opens when they are accepted, disjoint and add up, and holds exactly them |
| HierarchyFile.WrittenHierarchyOpens | copc-writer/src/writer.rs:440-466 | the page-tree round trip from the writer's own bytes, whatever surrounds them |
| OpenLimits.HierarchyOpensExactly | copc-reader/src/lib.rs:105-164 | such a file opens if and only if its entries are accepted, disjoint, within the budget and add up |
| WriteOpen.IndexNodesGood | copc-writer/src/lod.rs:43-84 | what the index builder hands over is what the writer needs |
| WriteOpen.WriteBody | copc-writer/src/writer.rs:428-469 | chunks, EVLR header, page tree and trailer in order; it fails only when a node does not fit, there is none, or offsets outgrow 64 bits |
| WriteOpen.WrittenTable | copc-writer/src/writer.rs:796-817 | in a finished file the word at the start of the point data leads past all chunks to the chunk table, which ends the section |
| WriteOpen.WrittenFileOpens | copc-reader/src/lib.rs:105-164 | a finished file within the reader's limits opens and holds exactly the entries written; pages keep to their subtree |
| OpenLimits.WrittenFileOpensExactly | copc-reader/src/lib.rs:530-585 | a finished file opens if and only if its chunks are at most 512 MiB and its hierarchy at most 256 MiB |
| OneNodeFiles.OneNodeOpensExactly | copc-reader/src/lib.rs:530-585 | a finished file of one node opens exactly when its chunk has at most 512 MiB |
| OneNodeFiles.OversizedChunkIsRefused | copc-writer/src/writer.rs:635-704 | a file the writer finishes and the reader refuses, for any chunk one byte over the limit |
| Opening.WrittenFileOpensFromHeader | copc-writer/src/writer.rs:440-495 | from its own header and EVLRs, a finished file opens eagerly exactly within the two size limits, and then lazily exactly within the VLR limit |
| Opening.LongVlrsOpenOnlyEagerly | copc-reader/src/ranged.rs:134-141 | a file the writer finishes that only the eager reader opens |
| WriteOpen.EveryPointIsFound | copc-reader/src/points.rs:1009-1048 | bounded-query completeness: every source point in the box is in a chunk the query keeps, whose bytes are in the file |
| WriteOpen.LazyAgreesOnWrittenFile | copc-reader/src/ranged.rs:371-373 | on a written file every successful run of lazy queries answers as the opened file does |
| WriteOpen.WrittenFileIsTidy | copc-writer/src/hierarchy_pages.rs:23-93 | every finished file within the limits meets the conditions of the exact results about lazy queries |
| WrittenQueries.WrittenFullQueryExactly | copc-reader/src/ranged.rs:360-366 | on a finished file the first query for everything succeeds exactly when every depth of the page tree has at most one page or a first page with children |
| WrittenQueries.LeafFirstFails | copc-reader/src/ranged.rs:360-366 | on a finished file whose root page has two child pages, the first a leaf, the first query for everything fails |
| WrittenTrees.WrittenTreeNests | copc-reader/src/ranged.rs:371-373 | the planner establishes that a page's entries lie under its key, which the reader assumes |
| WrittenTidy.WrittenTreeIsTidy | copc-writer/src/hierarchy_pages.rs:23-93 | in a written tree a page lists a key once, two pages share a key only as a page's entry and that page's own, and each page is pointed at once |
| Calendar.DateIsGregorian | copc-writer/src/metadata.rs:438-457 | every day from 1970 on gets its Gregorian day of year and year (section 3.2.1 of ISO 8601:2004), the year cut to 16 bits |
| Calendar.DateIsUnique | copc-writer/src/metadata.rs:438-457 | no other date has the same day number |
| Calendar.DateExact | copc-writer/src/metadata.rs:438-457 | the date is exact whenever the year fits 16 bits |
| Calendar.DatesSucceed | copc-writer/src/metadata.rs:438-457 | day 0 is (1, 1970) and each day is the successor of the one before |
| PointRecord.AxisRoundTrip | copc-writer/src/validate.rs:323-336 | a coordinate that encodes comes back within half a scale step |
| PointRecord.GridRoundTrip | copc-writer/src/validate.rs:323-336 | a coordinate on the grid comes back exactly |
| Layouts.QuantizeExactly | copc-writer/src/validate.rs:323-336 | a coordinate is stored as the nearest step, ties away from zero, and refused exactly when that is no 32-bit integer |
| PointRecord.ScanAngleRoundTrip | copc-writer/src/validate.rs:197-216 | a valid scan angle comes back within 0.003 degrees |
| Layouts.ScanAngleRange | copc-writer/src/validate.rs:208-216 | exactly the angles from -196.608 to 196.602 can be stored |
| Layouts.StoredScanAngle | copc-writer/src/validate.rs:197-206 | the stored word times 0.006 is within 0.003 of the angle |
| PointRecord.PackedBytes | copc-writer/src/writer.rs:868-875 | validated flag fields share no bits |
| PointRecord.EncodePointRecord | copc-writer/src/writer.rs:854-898 | fills the buffer with the record, failing exactly on range or extra-byte errors |
| Layouts.RecordLayout | copc-writer/src/writer.rs:854-898 | every field of a written point is at its byte |
| PointRecord.PointRoundTrip | copc-reader/src/points.rs:529-697 | every field of a validated point comes back, reals within half a step, classification exactly when it is not 12 |
| Layouts.RowLayout | copc-reader/src/points.rs:529-697 | every record, whoever wrote it, decodes to what its bytes say, field by field |
| EncodeNode.EncodeNodePoints | copc-writer/src/writer.rs:578-617 | the node buffer holds its points' records in order, or one of them does not encode |
| EncodeNode.ChunkDecodes | copc-reader/src/points.rs:297-331 | with a lossless compressor, record j of a chunk decodes to a row matching the node's j-th point |
| EncodeNode.EveryPointComesBack | copc-reader/src/points.rs:147-233 | end to end: every validated source point in the box is decoded from a selected chunk to a matching row |
| ReadBack.QueryReadsItsPoints | copc-reader/src/points.rs:147-233 | a column read of any query over a finished file succeeds and returns exactly the rows of the points at the selected nodes whose rows are in the box, each once |
| ReadBack.PointColumn | copc-reader/src/points.rs:597-697 | place j of each column holds the field of that name of the j-th point returned: reals to half a step and exactly on the grid, class 12 as 1, all else unchanged |
| ReadBack.QueryReadsExactlyTheBox | copc-reader/src/points.rs:147-233 | with points on the grid, or without a box, those are exactly the points of the levels asked for inside the box, and every column holds their fields |
| ReadBack.BoxPointReturned | copc-reader/src/points.rs:297-331 | a source point of the box comes back exactly when its level is asked for and its row is still in the box |
| ReadBack.OffGridPointLeavesBox | copc-writer/src/validate.rs:323-336 | a point of a box whose quantized row is outside it |
| Spill.SerializeLe | copc-core/src/streaming.rs:172-239 | fills the buffer with the record's fields, or leaves it alone |
| Spill.DeserializeLe | copc-core/src/streaming.rs:248-349 | reads every field at its offset for every layout |
| Spill.SpillRoundTrip | copc-core/src/streaming.rs:172-349 | a stored record comes back with unstored fields zeroed, for every layout |
| Layouts.SpillLayout | copc-core/src/streaming.rs:248-349 | every field of a spilled record is at its byte, for every layout |
| Layouts.SpillFlags | copc-core/src/streaming.rs:172-239 | a stored flag is one byte, 0 or 1 |
| Layouts.SpillAccepts | copc-writer/src/validate.rs:124-132 | exactly which records the store takes |
| Spill.SpillWriter.Push | copc-writer/src/spill.rs:59-83 | takes in exactly the valid records; a rejected one changes no file, bounds, statistics or count |
| Spill.SpillWriter.Finalize | copc-writer/src/spill.rs:89-116 | hands over the file of all accepted records, whose length always matches |
| Spill.BoundsAreTight | copc-core/src/bounds.rs:35-42 | the running bounds hold every accepted point and touch one on each face |
| Spill.StatsGrow | copc-writer/src/validate.rs:26-40 | the running statistics are the exact time extremes and return counts |
| Spill.SpillReadsBack | copc-writer/src/spill.rs:204-250 | record i reads back as the i-th accepted one, and nothing else can be read |
| Columns.ColumnBuilders.DecodeInto | copc-reader/src/points.rs:297-331 | appends exactly the chunk's accepted rows to every column |
| Columns.ReadColumns | copc-reader/src/points.rs:147-183 | the sequential read returns the specified batch, or some record fails |
| Columns.ReadColumnsInBatches | copc-reader/src/points.rs:185-226 | decoding chunks apart and merging in order returns the same batch, for every batch size |
| Columns.BatchIsEven | copc-reader/src/points.rs:228-233 | every column of a batch holds the same number of points |
| ColumnContents.ReadSaysBytes | copc-reader/src/points.rs:297-697 | whatever file the chunks come from, every column of a read holds, in order, what the bytes of the records in the box say, and nothing else |
| PointRows.PointIter.Next | copc-reader/src/points.rs:768-827 | returns the first accepted record left; a record that fails ends the iteration and stays counted; the counter is the number of records left |
| PointRows.ScanYields | copc-reader/src/points.rs:768-827 | each call returns the first of the rows left and leaves the others, or an error when no row comes before a record that fails |
| PointRows.HintIsRowsLeft | copc-reader/src/points.rs:829-840 | the size hint bounds the rows left, and without a box it is exact if and only if every record left decodes |
| PointRows.IteratorMatchesColumns | copc-reader/src/points.rs:775-806 | the iterator returns, in order, exactly the rows a column read holds |

## Left out

- LazyEager.QueryAgrees: only for queries that return Ok on a reader no earlier call has failed on; the section above gives the input that shows why.
- LazyQueries.LazyQueryOkExactly: for files whose pages form a tree; a file that points at one page twice, or lists one key on unrelated pages, can open or not depending on the order pages are read in.
- PagePlan.PlanHierarchyPages: keys up to level 31, where the 32-bit shift of `key_contains` is defined; the writer's levels end at 30.
- Spill.SpillWriter.Push: not the 2^64th record, where the count overflows after the record was written.
- The LAZ compressor, decompressor and chunk-table format: foreign code; parameters from raw points to non-empty chunks and back and from chunk sizes to a table, lossless where `EncodeNode` and `ReadBack` say so.
- Opening.OpenEagerly: reading the LAS header, the VLRs and the COPC info field by field; the fields opening goes by are given (`Header`), the point-data offset check among them.
- Opening.OpenLazily: the same.
- WriteOpen.WriteBody: the LAS header and VLRs in front (`Body.prefix`, any bytes), the metadata checks, and the patching of the COPC info and first EVLR offset afterwards; the fields patched in are those of the `CopcInput` it returns.
- Coordinate reference systems and extra-byte descriptions: flat copies of records.
- IEEE rounding, NaN and infinities: coordinates are exact reals, and float words stand for reals through a parameter where bytes matter.
- The `log2` of `LodSelection::Resolution` and the checks on its two operands: the level it works out to is given.
- Near-infrared and waveform columns, and column type mismatches: formats 6 and 7 only, with columns built for their format.
- Page plans, pages and items are values, not boxed nodes updated in place; ordered maps are finite maps with a sorted view; the loader's and the writer's buffers are sequences that grow.
- Files, memory maps, temporary files, HTTP ranges, atomic renames, thread scheduling, cancellation, error text, allocation capacities.
- `validate_source_points` and the write setup checks: one-branch facts used here as hypotheses (`Indexed`, `Validated`).
