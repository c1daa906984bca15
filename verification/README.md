# darkvis block store, in Dafny

darkvis renders an N-body simulation whose particles are stored out of core,
as one octree of blocks per snapshot. The tree generator (`gentree`) writes
the trees. The viewer's block manager keeps a byte-budgeted part of each tree
resident, and its priority scheduler decides which leaves to split (load
their children) and which parents to merge (evict their children). This
project models those three pieces, plus the generator's external merge sort,
as pure Dafny functions over immutable data, and proves the properties the
design relies on.

Modules, one per source unit:

- `Wrappers`: `Option` and `Result`.
- `Blocks`: the on-disk header, the resident block with its eight child
  slots, the scheduler entry, and the octant and runtime flag bits
  (Blocks.h, BlockManager.h).
- `Forest`: the resident forest as an arena keyed by header address, with
  its link invariant.
- `ScoreSort`: the descending sort the scheduler applies to both queues.
- `Priority`: `Recompute` and `buildQueue` (BlockPriority.cpp).
- `Schedule`: `GetSplit`, `DoSplit`, `DoMerge` and `GetMergeCost`.
- `Layout`: a children region as a sequence of cells, and the viewer's
  parse of it (`findBlocks`).
- `Manager`: the block manager's transitions. `LoadRoots`, the claim half
  of `LoadingLoop` (budget check, eviction, reservation, load flag),
  `RemoveBlocks`, the completion half of `LoadingLoop` (`findBlocks` and
  linking), and `FreeDeadBlocks`.
- `Snapshots`: snapshot headers, `GetSnapAt` and `GetBlockCoords`.
- `TreeIndex`: the Morton interleave tables (gentree/TreeIndex.cpp) and
  `deinterleave` (gentree/WriteBlock.cpp).
- `Formats`: path builders, the `BlockFile` header, and the record
  orderings (gentree/Formats.h).
- `Emitter`: `CreateBlocks`, `CreateLeaf`, `GetMatchingCount`,
  `ReadNextBlock`, `NextWriter`, `WritePendingBlock` and `ProcessBlocks`
  (gentree/CreateBlocks.cpp, gentree/WriteBlock.cpp).
- `MergeFiles`: `MergeFiles` and the `MergeSorted` pass schedule
  (gentree/MergeFiles.h).

Modelling choices:

- A block is named by the address of its header. A children region is
  allocated as one slab, so child `i` lives at `base + offset`. The slab's
  first child is the pointer the dead list frees.
- A file is an append-only log of cells. A record is one `Head(header)` cell
  followed by `Body` cells, one per byte of the record. The reader finds a
  header only where a `Head` cell sits. Reading into the middle of a record
  is therefore a parse failure rather than a silent misparse.
- `childFlags` is a 16-bit value. The manager borrows bit 9 (`LoadFlag`,
  0x200) and bit 10 (`DeleteFlag`, 0x400). The low eight bits say which
  octants exist.
- Block scores come from an uninterpreted scoring function. The model
  depends only on the order the scores induce.
- `std::sort` is modelled as an insertion sort. Its contract is
  "sorted descending, and a permutation of the input", which every output
  of `std::sort` meets.

On a 64-bit build the viewer's code and the documented design disagree in
one place. The design says the children of a block lie back to back, header
plus samples, with no padding. The writer does write them that way, with the
136-byte packed `OutBlock` header, whose eight child-pointer slots are four
bytes each (gentree/Formats.h:220-222). The viewer's `findBlocks` steps by
`sizeof(Block)`, the in-memory struct, which also holds eight child
pointers. With 4-byte pointers that struct is 136 bytes too
(`Layout.HeaderSizes`), so on the 32-bit build the viewer targets, as its
`(uint)` pointer casts show, the step is correct. With 8-byte pointers it is
168 bytes and the parse goes wrong. `Layout.ScanNative` is the parse with
the 168-byte step. `Layout.ScanOnDisk` steps by the on-disk header size. The
manager's load path (`Manager.Complete` and the lemmas about it) and
`Emitter.ChildrenSound` use the 136-byte step: the code as written on a
32-bit build, and the correction on a 64-bit one (see Findings).

## Model

| member | source | states |
|---|---|---|
| Blocks.OctantsIgnoreRuntimeFlags | BlockManager.h:27-31 | setting or clearing a flag above the low eight bits never changes how many octants a block has |
| Blocks.HighBitsKeepOctants | BlockManager.h:27-31 | setting or clearing flag bits above bit 7 leaves every octant bit as it was |
| Blocks.ManagerFlagsAreHighBits | BlockManager.h:27-31 | the load and delete flags are bits 9 and 10, lie outside the octant bits, and either one makes a block busy |
| Blocks.FirstResident | BlockManager.cpp:151-161 | the representative put on the dead list exists exactly when some slot is non-null, and it is one of the slots |
| Forest.ResidentNeedsFlags | BlockManager.cpp:195-201 | in a linked forest, a block with a resident child has at least one octant bit set on disk |
| Priority.BuildQueue | BlockPriority.cpp:59-115 | the answer is "a child is resident, or the block is busy"; every entry appended is a well-formed split or merge candidate from this subtree, with its parent and the snapshot's score |
| Priority.BuildSlots | BlockPriority.cpp:79-92 | the loop counts the resident children exactly; it reports whether any child reports; the entries it appends come from below the block |
| Priority.BuildQueueCovers | BlockPriority.cpp:59-115 | the blocks queued by one walk are exactly the split candidates and exactly the merge candidates reachable from the block |
| Priority.CoversIdle | BlockPriority.cpp:63-69 | a block with no octants, or a busy block, queues exactly the candidates reachable from it |
| Priority.CoversNewLeaf | BlockPriority.cpp:96-101 | a leaf with octants on disk queues itself, and exactly its reachable candidates |
| Priority.CoversMergeable | BlockPriority.cpp:105-111 | a parent whose resident children are all leaves queues itself for merge, plus exactly its reachable candidates |
| Priority.CoversInner | BlockPriority.cpp:113-114 | an inner block queues exactly the candidates its children reach |
| Priority.BuildSlotsCovers | BlockPriority.cpp:81-92 | the slot loop from octant `i` queues exactly the candidates reachable through slots `i..7` |
| Priority.MergeCandidateChildrenAreLeaves | BlockPriority.cpp:103-111 | every resident child of a merge candidate is itself a leaf, so merging frees whole leaves only |
| Priority.CandidatesDisjoint | BlockPriority.cpp:96-111 | no block is both a split candidate and a merge candidate |
| Priority.BuildRoots | BlockPriority.cpp:31-42 | the loop over snapshots only appends; every appended entry is a valid candidate of a snapshot it visited, and its parent field names the block that holds it in a slot, or is empty on that snapshot's root |
| Priority.BuildRootsCovers | BlockPriority.cpp:28-42 | the loop over snapshots queues exactly the candidates reachable from the loaded roots |
| Priority.WalkFacts | BlockPriority.cpp:14-42 | one walk from empty queues yields exactly the reachable candidates, each tagged with a valid snapshot and an honest parent; in a tree no block is queued twice |
| Priority.BuildQueueDistinct | BlockPriority.cpp:59-115 | in a tree (one parent per block), one walk from a block queues each block at most once |
| Priority.BuildSlotsDistinct | BlockPriority.cpp:81-92 | in a tree, the loop over the eight slots queues each block at most once, since different slots lead to disjoint subtrees |
| Priority.BuildRootsDistinct | BlockPriority.cpp:31-42 | with distinct roots that sit in no child slot, the loop over snapshots queues each block at most once |
| Priority.CommonReach | BlockPriority.cpp:81-92 | in a tree, two walks that reach a common block start on one path: the deeper start is reached from the shallower |
| Priority.SortKeepsDistinct | BlockPriority.cpp:49-50 | sorting a queue that names each block once keeps it so |
| Priority.Recompute | BlockPriority.cpp:14-53 | frozen gives empty queues; otherwise each queue holds exactly the reachable candidates, sorted by descending score, with no block in both; every entry's parent is the block holding it or, when empty, the entry is its snapshot's root; in a tree each queue names a block at most once |
| Priority.ToggleFreeze | BlockPriority.h:67 | toggling flips the freeze flag and leaves the queues alone |
| Priority.ToggleFreezeTwice | BlockPriority.h:67 | toggling twice is the identity |
| ScoreSort.Insert | BlockPriority.cpp:7-11 | inserting into a descending queue keeps it descending and adds exactly one entry |
| ScoreSort.SortDesc | BlockPriority.cpp:49-50 | the sorted queue is descending by score and is a permutation of the input |
| Schedule.FindSplit | BlockPriority.cpp:177-185 | the index found is the first live entry on the wanted partition; none means there is no such entry |
| Schedule.GetSplit | BlockPriority.cpp:173-192 | a candidate is returned exactly when some queued entry is live on the partition, and it is such an entry |
| Schedule.GetSplitIsBest | BlockPriority.h:52-53 | on a descending queue, no live entry on the partition scores higher than the one returned |
| Schedule.DropBlock | BlockPriority.cpp:208-215 | only the block field changes; the set of queued blocks loses exactly the given block |
| Schedule.DropChildrenOf | BlockPriority.cpp:253-269 | afterwards no entry has a merged block as its parent; every other entry is unchanged |
| Schedule.DoSplit | BlockPriority.cpp:195-222 | the chosen candidate, the first live entry on the sub-file, is tombstoned in place, a later copy of it is left alone, and its parent leaves the merge queue; with no candidate nothing changes |
| Schedule.SplitConsumed | BlockPriority.cpp:173-218 | on a split queue that named each block once, after the chosen entry is tombstoned no `GetSplit` of any sub-file returns that block again |
| Schedule.SelectedBlocks | BlockPriority.cpp:233-249 | every block chosen for merging is resident and is not the excluded parent |
| Schedule.SelectedBlocksMembers | BlockPriority.cpp:233-249 | a block is chosen exactly when its entry is selected by the budget walk |
| Schedule.NothingAfterBudget | BlockPriority.cpp:247-248 | once the bytes taken exceed the request, no later entry is selected |
| Schedule.SelectedFreesEnough | BlockPriority.cpp:243-248 | the chosen blocks free more than the request, or else everything eligible |
| Schedule.TakeMerges | BlockPriority.cpp:227-249 | the loop tombstones exactly the selected entries and returns exactly the selected blocks |
| Schedule.DropSplitChildren | BlockPriority.cpp:253-269 | the loop over merged blocks removes exactly the split entries whose parent was merged |
| Schedule.DoMerge | BlockPriority.cpp:225-272 | exactly the selected merge entries are tombstoned; split entries under them are dropped; the excluded parent is never chosen; enough is freed or everything was taken |
| Schedule.GetMergeCost | BlockPriority.cpp:276-300 | the cost is the summed score of the entries `DoMerge` would take, and 0 when even all of them are not enough |
| Schedule.MergeKeepsChosenSplit | BlockManager.cpp:96-104 | evicting to make room (never the candidate's own parent) leaves the split candidate the scheduler picked unchanged |
| Manager.MarkDeleted | BlockManager.cpp:151-161 | exactly the listed children gain the delete flag; nothing else changes |
| Manager.RemoveBlocks | BlockManager.cpp:143-183 | the parent's slots are all null; the block count drops by its resident children and the byte count by its `childLength`; one representative goes on the dead list |
| Manager.RemoveBlocksEffect | BlockManager.cpp:151-172 | only the parent's slots change; exactly its children are flagged for deletion |
| Manager.RemoveBlocksShape | BlockManager.cpp:143-179 | removal changes no block's depth, octants or other persisted fields |
| Manager.RemoveKeepsLinked | BlockManager.cpp:164-172 | removal keeps the forest linked |
| Manager.RemovedChildrenAreBusy | BlockManager.cpp:147-156 | a removed child is busy and is no longer linked under its parent |
| Manager.RemoveAll | BlockManager.cpp:96-99 | removing all merged blocks frees exactly their summed `childLength`, adding one dead entry each |
| Manager.RemoveAllSlots | BlockManager.cpp:162-172 | after the removal loop every merged block has only null slots and every other block keeps its slots |
| Manager.RemoveAllCounts | BlockManager.cpp:162-176 | the block count drops by the merged blocks' resident children (a block merged twice counts once), and the dead list gains each merged block's first resident child |
| Manager.RemoveAllFlags | BlockManager.cpp:143-158 | across the removal loop, exactly the resident children of the merged blocks gain the delete flag and every other header is unchanged |
| Manager.RemoveAllKeepsLinked | BlockManager.cpp:96-99 | removing all merged blocks keeps the forest linked |
| Manager.StepsAscend | BlockManager.cpp:195-208 | offsets that each step past the previous block strictly increase |
| Manager.ScanWellFormed | BlockManager.cpp:195-208 | a successful parse yields strictly increasing offsets and octants |
| Manager.ScanFoundIn | BlockManager.cpp:195-208 | each parsed child sits at a header in the slab, on an octant the flags name |
| Manager.InstallChildren | BlockManager.cpp:200-204 | every parsed child is added at base plus its offset, with null slots, and linked in its octant's slot |
| Manager.InstallParent | BlockManager.cpp:195-201 | slots for absent octants keep their value; the parent's load flag is cleared |
| Manager.InstallOthers | BlockManager.cpp:186-208 | every other block is untouched; only the new children are added |
| Manager.InstallLinksFound | BlockManager.cpp:195-204 | after linking, each parsed child is reachable from its octant slot with its parsed header |
| Manager.InstallKeepsLinked | BlockManager.cpp:186-208 | linking children one level below the parent keeps the forest linked |
| Manager.Complete | BlockManager.cpp:186-213 | completion succeeds exactly when the slab parses; then the children are linked, the block count grows by the octant count, and bytes are unchanged |
| Manager.CompleteKeepsLinked | BlockManager.cpp:186-208 | completing a load whose headers lie one level down keeps the forest linked |
| Manager.CompleteReadsBack | BlockManager.cpp:195-208 | completion of a region written as consecutive records recovers each header at the prefix sum of the earlier record sizes |
| Manager.CompleteFirstChildIsBase | BlockManager.cpp:150-175 | after a load, the first resident child is the slab's base, the pointer later freed |
| Manager.LoadFlagKeepsShape | BlockManager.cpp:119-121 | setting the load flag changes no persisted shape |
| Manager.FlagLoading | BlockManager.cpp:119-121 | flagging the claimed block keeps the forest linked and the queues live, and the flag is set |
| Manager.RuntimeFlagKeepsOctants | BlockManager.h:27-31 | setting or clearing either runtime flag keeps every octant bit |
| Manager.MakeRoom | BlockManager.cpp:84-100 | eviction removes the children of exactly the blocks `DoMerge` selects (their slots null, every other block's kept, the block count and dead list updated) and leaves the queues `DoMerge` makes; it frees those blocks' bytes, the forest stays linked, and the pending split candidate is unchanged |
| Manager.AfterMerge | BlockManager.cpp:96 | `DoMerge` only tombstones: the taken merge entries and the split entries under them; the queues stay live |
| Manager.Evicted | BlockManager.cpp:82-99 | the blocks the claim evicts are resident, never the candidate's own parent, and hold exactly the bytes it frees |
| Manager.Budget | BlockManager.cpp:82-100 | the split goes ahead exactly when it fits, or its score is not below the merge cost; then the state is the removal of the evicted blocks and the queues those `DoMerge` leaves, and the freed bytes bring residency within budget, or everything eligible was freed |
| Manager.Reserve | BlockManager.cpp:64-104 | an admitted split leaves the state after removing the evicted blocks, reserves its `childLength`, and leaves the queues `DoSplit` makes of the merged ones, tombstoning the candidate; the split queue only gains tombstones; a declined one changes nothing |
| Manager.Claim | BlockManager.cpp:64-125 | the three outcomes: no candidate, declined (nothing changes), or admitted; past the budget the evicted blocks are removed and the queues merged and split; a failed allocation reserves nothing, and an admitted one only adds the load flag on the candidate; when the split queue named each block once, no later `GetSplit` returns the claimed block |
| Manager.LoadingNotQueued | BlockManager.cpp:121 | a block carrying the load flag is in neither queue of any recomputation, so no other pass splits or merges it while its children are read |
| Manager.LoadRoots | BlockManager.cpp:37-58 | each snapshot this partition owns gets its root, read from disk with null slots; counters grow by exactly those roots |
| Manager.LoadRootsAddsOnlyRoots | BlockManager.cpp:37-48 | the only blocks added are the owned roots |
| Manager.LoadRootsKeepsLinked | BlockManager.cpp:43-48 | loading roots keeps the forest linked and every root in the arena |
| Manager.FreeDeadBlocks | BlockManager.cpp:244-263 | exactly the blocks of the dead slabs leave the arena; counters are unchanged; the dead list is emptied |
| Manager.FreeKeepsLinked | BlockManager.cpp:244-263 | when no live slot points into a dead slab, freeing keeps the forest linked |
| Layout.Record | gentree/WriteBlock.cpp:129-138 | a written record is one header cell followed by the sample bytes, header size plus count times vertex size long |
| Layout.Records | gentree/CreateBlocks.cpp:113-123 | a children region is as long as the sum of its records |
| Layout.Scan | BlockManager.cpp:194-208 | a successful parse finds one child per octant bit set |
| Layout.ScanOffsets | BlockManager.cpp:195-206 | each parsed child sits at a header cell, and each offset is the previous offset plus that block's size |
| Layout.ScanOctantsPresent | BlockManager.cpp:195-201 | every parsed child's octant is flagged |
| Layout.ScanOctantsCovered | BlockManager.cpp:195-201 | every flagged octant has a parsed child, in ascending order |
| Layout.ScanRecords | BlockManager.cpp:195-208 | parsing consecutive records recovers each header at the prefix sum of the earlier record sizes |
| Layout.ScanNative | BlockManager.cpp:206 | the viewer's parse, stepping by the in-memory struct size of a 64-bit build, finds one child per octant when it succeeds |
| Layout.NativeScanMissesSecondChild | BlockManager.cpp:206 | a region of two empty children, as written, makes the viewer's parse fail, while the on-disk step reads it |
| Layout.ScanOnDisk | gentree/WriteBlock.cpp:130-138 | the parse stepping by the written header size finds one child per octant when it succeeds |
| Layout.ScanOnDiskReadsBack | gentree/WriteBlock.cpp:138 | the round trip: a written region always parses, and each offset is the prefix sum of the earlier record sizes |
| Layout.HeaderSizes | gentree/Formats.h:186-224 | the packed header is 136 bytes and a vertex 32; the in-memory block matches 136 only with 4-byte pointers |
| Emitter.MatchingFrom | gentree/CreateBlocks.cpp:161-168 | the scan stops at the first point outside the block, or just past the capacity |
| Emitter.GetMatchingCount | gentree/CreateBlocks.cpp:159-169 | all counted points lie in the block; when the count is within capacity, the next point does not |
| Emitter.CreateLeaf | gentree/CreateBlocks.cpp:140-156 | the leaf takes exactly the first `count` points, pending for write; the stream moves past them |
| Emitter.ReadNextBlock | gentree/CreateBlocks.cpp:172-191 | refilling keeps the stream and the buffered prefix; it fills up to the buffer size, or until input ends |
| Emitter.NextWriter | gentree/CreateBlocks.cpp:195-200 | the writer index advances cyclically over the output files |
| Emitter.PendingHeader | gentree/WriteBlock.cpp:26-46 | the header written takes count, location, length, flags and file from the block's table slot |
| Emitter.WritePending | gentree/WriteBlock.cpp:24-138 | writing appends one record to the current file only, returns its size, and frees exactly this node's pending points |
| Emitter.WritePendingOk | gentree/WriteBlock.cpp:129-132 | writing a pending block keeps every written header's children readable |
| Emitter.SetOctant | gentree/CreateBlocks.cpp:119 | or-ing bit `i` sets octant `i` and no other |
| Emitter.WriteChildren | gentree/CreateBlocks.cpp:113-123 | the loop appends exactly the present children's records, and the length and flags describe exactly those |
| Emitter.AccFlagsBits | gentree/CreateBlocks.cpp:110-122 | an octant is flagged exactly when that child is present; the flag count equals the present count |
| Emitter.ChildrenFlagsCount | gentree/CreateBlocks.cpp:110-122 | the number of flagged octants equals the number of records written |
| Emitter.CreateBlocks | gentree/CreateBlocks.cpp:74-136 | a block within capacity becomes a leaf holding exactly its points; a larger one records a child region inside its file; recursing past the maximum depth fails; the readability invariant is kept |
| Emitter.LeafNode | gentree/CreateBlocks.cpp:80-92 | a leaf keeps exactly its points pending and consumes them from the stream |
| Emitter.InternalNode | gentree/CreateBlocks.cpp:95-126 | an internal node records MAX_COUNT samples and a child region inside its file |
| Emitter.CreateChildren | gentree/CreateBlocks.cpp:95-96 | recursing over the children only appends and keeps the readability invariant |
| Emitter.FinishNodeOk | gentree/CreateBlocks.cpp:101-123 | recording the child region in the table keeps the readability invariant |
| Emitter.Start | gentree/CreateBlocks.cpp:205-236 | the generator starts with empty files, an empty table and the whole point stream |
| Emitter.ProcessBlocks | gentree/CreateBlocks.cpp:203-264 | the root info points at a header at the end of one output file, and its length is that record's size |
| Emitter.ScanRecordsSteps | gentree/CreateBlocks.cpp:101-123 | a written region parses with its first child at offset 0 and each next offset one record further |
| Emitter.ChildrenReadBack | gentree/CreateBlocks.cpp:101-123 | for every written header, its child region lies inside its file, parses, and ends exactly at the region's end |
| Emitter.ChildrenSound | BlockManager.cpp:186-208 | every header the viewer reads from a written region again satisfies the readability invariant |
| Emitter.SlabReadBack | gentree/WriteBlock.cpp:138 | a region of consecutive records parses with one child per octant, ending at the region's end |
| Emitter.RegionRecords | gentree/CreateBlocks.cpp:104-123 | every written header's child region is the concatenation of one record per flagged octant |
| TreeIndex.BuildTreeLookup | gentree/TreeIndex.cpp:9-19 | the table maps each 10-bit value to its bits spread three apart |
| TreeIndex.DoubleTable | gentree/TreeIndex.cpp:15-16 | doubling the table with a raised copy keeps every entry the spread of its index |
| TreeIndex.SpreadHigh | gentree/TreeIndex.cpp:15-16 | adding the next bit to an index adds 8 to the power `n` to its spread |
| TreeIndex.TreeLookupFacts | gentree/TreeIndex.cpp:11-18 | table entries are injective, below 2^30, keep the index bits at positions 3b, and are zero elsewhere |
| TreeIndex.SpreadInjective | gentree/TreeIndex.cpp:11-18 | distinct indices have distinct spreads |
| TreeIndex.SpreadBound | gentree/TreeIndex.cpp:11-18 | the spread of an `n`-bit value fits in `3n` bits |
| TreeIndex.SpreadBits | gentree/TreeIndex.cpp:9-19 | bit `b` of the value lands at bit `3b`, and bits `3b+1` and `3b+2` are zero |
| TreeIndex.GridOf | gentree/TreeIndex.cpp:32-37 | the grid cell is clamped to the grid and contains the coordinate |
| TreeIndex.GetCoordInterleaves | gentree/TreeIndex.cpp:39-47 | the key is the Morton interleave of the three grid cells: bit `3k+a` is bit `k` of axis `a` |
| TreeIndex.LookupAxis | gentree/TreeIndex.cpp:39-47 | the two table lookups per axis rebuild the spread of the full 20-bit cell |
| TreeIndex.InterleaveBit | gentree/TreeIndex.cpp:39-47 | bit `3k+a` of an interleave is bit `k` of axis `a` |
| TreeIndex.SpreadSplit | gentree/TreeIndex.cpp:39-47 | spreading a value split at bit `n` is spreading each half, the high one shifted by `3n` |
| TreeIndex.Deinterleave | gentree/WriteBlock.cpp:141-155 | the loop computes the deinterleaved position, and every axis fits in 16 bits |
| TreeIndex.DeinterleaveCoord | gentree/WriteBlock.cpp:141-155 | deinterleaving a key recovers each axis cell divided by 16 |
| TreeIndex.CompactInterleave | gentree/WriteBlock.cpp:146-154 | gathering every third bit from an axis's offset recovers that axis |
| TreeIndex.DropFourDigits | gentree/WriteBlock.cpp:145 | dropping 12 low bits of a key drops 4 bits from each axis |
| Snapshots.CDiv | BlockManager.cpp:310 | C's integer division truncates toward zero for every sign: the remainder is smaller than the divisor in magnitude and is zero or has the dividend's sign |
| Snapshots.CDivUnique | BlockManager.cpp:310 | truncation determines the quotient: any quotient whose remainder has those properties is C's |
| Snapshots.CDivExamples | BlockManager.cpp:310 | -6/-2 is 3, -6/2 is -3, -5/-2 is 2, -5/2 and 5/-2 are -2 |
| Snapshots.SnapCount | BlockManager.cpp:310 | the count is one more than the truncated quotient of the snapshot range by the interval, with its remainder bounds |
| Snapshots.DescendingRange | BlockManager.cpp:310-316 | snapshots 10 down to 4 by -2 select 10, 8, 6, 4; by +2 the count is negative and the load fails |
| Snapshots.SnapNumsAreSteps | BlockManager.cpp:314-328 | snapshot `i` is number `first + i * interval` |
| Snapshots.LoadInfos | BlockManager.cpp:313-329 | loading succeeds exactly when every info file exists, and each record carries its snapshot number |
| Snapshots.LoadSnapshots | BlockManager.cpp:307-349 | a negative snapshot count fails; otherwise it loads the infos of the numbered snapshots |
| Snapshots.GetSnapAt | BlockManager.cpp:370-378 | the result is the last snapshot not after the time, or 0 before the first |
| Snapshots.SnapAtIsLastNotAfter | BlockManager.cpp:370-378 | on ascending times, a snapshot is not after the time exactly when its index is at most the result |
| Snapshots.BlockAxis | BlockManager.cpp:223-240 | along each axis, a block's box starts at its 16-bit position scaled into the snapshot box, and its edge is the snapshot edge divided by 2^depth |
| Snapshots.ChildBoxInsideParent | BlockManager.cpp:235-239 | a child's box is half its parent's and lies inside it |
| Snapshots.ReadSnapInfo | BlockManager.cpp:381-390 | a record reads as a snapshot info exactly when its fields have the packed layout |
| Snapshots.BlockFileReadsAsSnapInfo | gentree/Formats.h:227-243 | a header the generator saves as a `BlockFile` reads back, field for field, as the viewer's `SnapInfo` (BlockManager.h:15-24) |
| Formats.NatToString | gentree/Formats.h:11-17 | the text is all digits, with at least two digits exactly from 10 on and at least three from 100 on |
| Formats.ParseNatToString | gentree/Formats.h:11-17 | parsing the decimal text gives back the number |
| Formats.FormatIdValue | gentree/Formats.h:32-40 | the zero-padded id parses back to the id and is three digits below 1000 |
| Formats.FormatIdInjective | gentree/Formats.h:32-40 | distinct ids give distinct padded strings |
| Formats.DecodeSnapPartPathRoundTrip | gentree/Formats.h:42-64 | a snapshot-part path decodes back to its snapshot and file numbers |
| Formats.PathBuildersDecode | gentree/Formats.h:42-64 | the hsml, subhalo-tab, subhalo-id and snapshot paths each decode back to their numbers |
| Formats.GetTreeDecodes | gentree/Formats.h:66-70 | a tree path decodes back to its snapshot and spacing |
| Formats.Swap | gentree/Formats.h:81-86 | swapping exchanges location and temporary |
| Formats.SwapTwice | gentree/Formats.h:81-86 | swapping twice is the identity |
| Formats.GroupVertexBIsKeyOrder | gentree/Formats.h:266-281 | the group ordering is a strict order on ranks, and particles outside any subhalo come last |
| MergeFiles.Merge | gentree/MergeFiles.h:88-113 | the merged run is as long as both inputs |
| MergeFiles.MergePermutes | gentree/MergeFiles.h:88-113 | the merged run is a permutation of both inputs |
| MergeFiles.MergeSortedRuns | gentree/MergeFiles.h:88-113 | merging two sorted runs gives a sorted run |
| MergeFiles.MergeTies | gentree/MergeFiles.h:91-100 | among equal keys the second run's records come first |
| MergeFiles.MergeRuns | gentree/MergeFiles.h:75-120 | the loop computes the merge of the two runs |
| MergeFiles.CopyRest | gentree/MergeFiles.h:104-113 | the drain loop appends the rest of a run unchanged |
| MergeFiles.PassAt | gentree/MergeFiles.h:39-58 | run `b` of a pass is the merge of runs `2b` and `2b+1`, or the odd one out copied |
| MergeFiles.PassPermutes | gentree/MergeFiles.h:39-61 | a pass permutes the records |
| MergeFiles.PassSorted | gentree/MergeFiles.h:39-61 | a pass over sorted runs yields sorted runs |
| MergeFiles.FilesRead | gentree/PartFiles.h:75-96 | a reader over a file range never reads past the file count |
| MergeFiles.CallAt | gentree/MergeFiles.h:39-58 | the two ranges of a call are consecutive and cover `min(2*blockLen, remaining)` files, the second empty exactly on the last lone block |
| MergeFiles.MergePass | gentree/MergeFiles.h:39-61 | the loop over blocks computes one pass and leaves half the blocks, rounded up |
| MergeFiles.MergeLone | gentree/MergeFiles.h:41-46 | a lone last block is copied through |
| MergeFiles.MergePair | gentree/MergeFiles.h:47-58 | each pair of blocks becomes one merged run of the pass |
| MergeFiles.CeilDivTwice | gentree/MergeFiles.h:62 | doubling the block length halves the block count, rounded up |
| MergeFiles.SwapNParity | gentree/MergeFiles.h:62-64 | after `n` swaps the paths are swapped exactly when `n` is odd |
| MergeFiles.PassOk | gentree/MergeFiles.h:37-65 | one pass keeps the runs sorted and a permutation of the files, with half as many runs |
| MergeFiles.MergeSorted | gentree/MergeFiles.h:16-69 | the result is one sorted permutation of all files, after ⌈log2 n⌉ passes, with location and temporary swapped once per pass |

## Left out

- Threads, the two mutexes and the `SDL_Delay` polling loops: claiming a
  split and completing a load are each one atomic transition. The unlocked
  disk read between them is the `slab` parameter.
- File I/O: files are append-only logs and readers take sequences. The
  allocator's answer is the `alloc` parameter. The info files are a
  function from path to record.
- `scoreBlock` and `getTimeScale` (screen-space and time weighting): the
  score is an uninterpreted function of snapshot and block.
- Floating point: doubles are reals. The quantisation to grid cells at the
  top of `GetCoord` is modelled on already-scaled coordinates.
- The point payloads: the min/scale arrays, the 16-bit quantisation and the
  log compression in `WritePendingBlock` are opaque body bytes.
- gentree/MergeBlock.cpp is not part of this model. Its one effect used
  here, that an internal node stores `MAX_COUNT` samples, is taken as a
  fact.
- MergeFiles: record fields other than the key, and how a run is cut into
  part files.
- Emitter.CreateBlocks: the source has no depth guard and writes past its
  per-depth tables. The model returns a failure at the maximum depth
  instead.
- Priority.Recompute: that no block is queued twice is promised only
  when the arena is a tree (`Forest.SingleParent`, `Forest.RootsApart`). The
  pointer structure allows sharing, and the manager model does not prove
  that its transitions keep the forest a tree. Manager.Claim's exclusivity
  clause is conditional on that promise for the same reason.
- Manager.Complete: parses the slab with the packed 136-byte header step
  (`OutBlockSize`). That is the `sizeof(Block)` step of BlockManager.cpp:206
  on a 32-bit build. On a 64-bit build `sizeof(Block)` is 168, and a slab of
  more than one child then does not read back (see Findings). The same holds
  for Manager.CompleteReadsBack, Manager.CompleteKeepsLinked and
  Emitter.ChildrenSound.
- Counters are unbounded integers: `totalBytes` (`uint64_t`), `totalBlocks`
  (`int`), `maxBytes` (`uint32_t`) and the header's `count` (`uint32_t`)
  never wrap in the model. The width-sensitive values are bounded
  explicitly instead: the Morton codes (below 2^60), the deinterleaved axes
  (16 bits), the lookup tables (below 2^30) and `childFlags` (16 bits).
- Manager.CompleteReadsBack: stated as the headers and offsets recovered.
  That they are linked is `Manager.InstallLinksFound`.
- The reader's header size is fixed at the packed size. A configured
  vertex size different from the writer's is not modelled.
- Emitter.PendingHeader: the position field is not stated here.
  `TreeIndex.DeinterleaveCoord` states it.
- Rendering, input, UI, keyframes, halo tables and the snapshot
  converters are outside this model.

## Findings

| source | as written | input that shows it | evidently intended | confidence | as-written member | corrected member |
|---|---|---|---|---|---|---|
| BlockManager.cpp:206 | `findBlocks` steps to the next child by `sizeof(Block)` plus count times vertex size; `sizeof(Block)` is 136 with the 4-byte pointers of the 32-bit build the code targets, but 168 on a 64-bit build, a portability defect | on a 64-bit build, flags = 3 with two empty children: the written region is 272 bytes with the second header at byte 136, but the parse looks at byte 168 | step by the packed header size, 136 bytes (gentree/Formats.h:209-224), on every build | not executed | Layout.NativeScanMissesSecondChild | Layout.ScanOnDiskReadsBack |
