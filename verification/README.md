# LexonGraph: a verified model

LexonGraph stores embeddings as content-addressed blocks and builds its index by balanced, streaming clustering. This
project models the parts in which one wrong step would go unnoticed (the clustering solvers, the block format, the
stores and the tree inspection) and proves what they promise. All files verify together with
`dafny verify dfyconfig.toml`.

Code of the repository that computes values is modelled by functions; a loop that updates variables is a method with
invariants, proved against a function or a property; an object that is updated in place is a class whose abstract state
every method accounts for. Source paths below are relative to the root of the repository.

## What is modelled

**Balanced assignment.** `MinCostFlow` is the successive-shortest-path solver over its residual network; `FlowOptimality`
proves that what it leaves behind is the cheapest flow of its value. `AssignmentNetwork`, `Transport` and
`AssignmentSolver` carry this to points and clusters: the penalty on optional slots makes every lower bound hold, and
the greedy loop over points ends with the lexicographically first of all optimal assignments. `DcbcStreaming` derives
the occupancy bounds and runs one pass around the solver.

**Directional planning.** `QuantileSummary` is the one-pass quantile summary with its rank error; its cuts always come
out in order. `AxisBins` are the two ways to split the cluster budget over axes, `ValleyCuts` the greedy histogram cuts,
`ReadyPlan` and `ReplayShares` the plan that numbers clusters and the replay that repeats it, and `RealizationPass` the
training pass that hands out clusters before its data has been compared with the counted data.

**Chunking by a sort key.** `Boundaries` and `PcaChunking`: many passes, each remembering one key and one count, find
the same boundaries as sorting all data and cutting it.

**Principal components.** `PcaAccumulator` shows that one-pass updates and merges, in any grouping and order, give the
two-pass mean and scatter matrix; `PcaTransforms` shows what composing, inverting and rebasing affine maps means.

**Azure table rows.** `TableRows`, `RowEncoding`, `RowCapacity`, `RowDecoding` and `RowRoundTrip` lay out a block under
the limits of the service and read it back. `PublishProtocol` is a state machine of any number of concurrent writers
with lost, late and repeated requests and crashes; `PublishProgress` shows that puts get done and what alone makes them
fail; `BlockReads` is a reader running beside it.

**Block format.** `Cbor`, `CanonicalValue`, `BlockFields`, `BlockEntries`, `BlockV1`, `BlockV2`, `VersionedBlock`: the
readers accept exactly what the writers make, and reordering changes nothing. `EbcpBits`,
`EbcpDescriptor` and `EbcpRoundTrip` are the bit-packed embedding payloads and their descriptors.

**Stores.** `Recency`, `MemoryStore`, `FsCache`, `FsCacheInit` are the bounded stores, their eviction order and their
books; the filesystem cache is described as the same abstract store as the memory one. `Overlay` stacks layers and
shows that caches do not show.

**Inspection.** `TreeInspection` and `TreeReport` are the breadth-first walk over a tree whose blocks may be shared,
missing or unreadable, and the report it builds.

Where the code and its documentation differ, the model follows the code.

## Model

| member | source | states |
|---|---|---|
| MinCostFlow.MinCostFlow.AddEdge | crates/lexongraph-dcbc-streaming/src/solver.rs:212-228 | adding an edge appends it and its zero-capacity partner, and keeps the graph well formed |
| MinCostFlow.MinCostFlow.ShortestPaths | crates/lexongraph-dcbc-streaming/src/solver.rs:239-268 | the rounds end with predecessor links that account for every distance, and with settled distances whenever the residual graph has a potential |
| MinCostFlow.MinCostFlow.FindRelaxable | crates/lexongraph-dcbc-streaming/src/solver.rs:274-288 | the check finds an edge exactly when the distances are not settled |
| MinCostFlow.MinCostFlow.Bottleneck | crates/lexongraph-dcbc-streaming/src/solver.rs:290-304 | the predecessor chain reaches the source, and the amount found is positive and fits every edge on it |
| MinCostFlow.MinCostFlow.Augment | crates/lexongraph-dcbc-streaming/src/solver.rs:306-321 | pushing along the chain keeps paired capacities constant, conserves flow at inner nodes, moves exactly the amount and opens only tight edges |
| MinCostFlow.AugmentedPotential | crates/lexongraph-dcbc-streaming/src/solver.rs:238-324 | a potential before an augmentation gives one after it |
| MinCostFlow.PotentialExcludesNegativeCycles | crates/lexongraph-dcbc-streaming/src/solver.rs:274-288 | with a potential, every closed walk over edges with spare capacity costs at least nothing, so the predecessor chains the later loops follow cannot be cyclic |
| MinCostFlow.MinCostFlow.SendFlow | crates/lexongraph-dcbc-streaming/src/solver.rs:229-327 | the flow sent is moved through the network unchanged; from a graph with a potential no error is returned, no negative cycle is left, and stopping short of the target means that a cut has no spare capacity |
| FlowOptimality.SentFlowIsCheapest | crates/lexongraph-dcbc-streaming/src/solver.rs:229-327 | the flow left behind is the cheapest of its value |
| AssignmentNetwork.NetworkHasPotential | crates/lexongraph-dcbc-streaming/src/solver.rs:116-151 | the network of a subproblem has a potential, since distances are never negative |
| AssignmentNetwork.NoCutBeforeFull | crates/lexongraph-dcbc-streaming/src/solver.rs:153-157 | no cut is closed before every point has been sent, so the full flow is reached |
| AssignmentNetwork.ReadIsCheapest | crates/lexongraph-dcbc-streaming/src/solver.rs:159-189 | the assignment read off the final flow is cheapest among all assignments within the upper bounds, penalties included |
| AssignmentSolver.BuildNetwork | crates/lexongraph-dcbc-streaming/src/solver.rs:116-151 | the loops build the network described by the cost rows and the two arcs of each cluster |
| AssignmentSolver.ReadAssignment | crates/lexongraph-dcbc-streaming/src/solver.rs:159-182 | every point is read off as assigned to the one cluster that takes its unit |
| Transport.CheapestMeetsLower | crates/lexongraph-dcbc-streaming/src/solver.rs:134-151 | because the penalty 8 exceeds the distance range 2, the cheapest assignment fills every lower bound |
| Transport.PenaltyExact | crates/lexongraph-dcbc-streaming/src/solver.rs:134-151 | an assignment that is cheapest with penalties is cheapest without them among those that meet the lower bounds |
| AssignmentSolver.SolveSubproblem | crates/lexongraph-dcbc-streaming/src/solver.rs:77-188 | none exactly when no completion of the fixed points meets the bounds, otherwise the least cost of such a completion |
| AssignmentSolver.SmallestExtension | crates/lexongraph-dcbc-streaming/src/solver.rs:33-62 | for each point the smallest cluster is chosen that some optimal assignment allows; the "could not preserve" error is not reached |
| AssignmentSolver.SolveLexicographicAssignment | crates/lexongraph-dcbc-streaming/src/solver.rs:12-70 | none exactly when no assignment meets the bounds, otherwise the lexicographically first of all minimum-cost assignments within them |
| DcbcStreaming.DerivedBoundsExact | crates/lexongraph-dcbc-streaming/src/lib.rs:328-382 | an assignment lies within the accepted bounds exactly when it meets the balance constraints |
| DcbcStreaming.DerivationDecidesSatisfiability | crates/lexongraph-dcbc-streaming/src/lib.rs:328-382 | the derivation accepts exactly the constraints that some assignment of the points meets, short of an overflow of k times the largest size |
| DcbcStreaming.DistanceMatrix | crates/lexongraph-dcbc-streaming/src/lib.rs:476-500 | twice every entry is the squared Euclidean distance of point and centroid, so an entry is zero exactly between equal vectors; all lie in the range that the solver requires |
| DcbcStreaming.CosinesHalveSquares | crates/lexongraph-dcbc-streaming/src/lib.rs:609-630 | for unit vectors one minus the sum of products is half the sum of squared differences |
| DcbcStreaming.MaterializeMemberships | crates/lexongraph-dcbc-streaming/src/lib.rs:502-525 | the points of each cluster, exactly and in ascending order; an error exactly when a size is out of bounds |
| DcbcStreaming.AssignPoints | crates/lexongraph-dcbc-streaming/src/lib.rs:403-445 | over distances that are half the squared Euclidean ones: from constraints that were accepted, the lexicographically first of all cheapest assignments that meet them, with the points of every cluster in ascending order; no error is left to report |
| QuantileSummary.InsertKeeps | crates/lexongraph-directional-pca/src/lib.rs:1380-1402 | inserting a value keeps the summary sorted, its gaps summing to the count, and every entry within its rank interval |
| QuantileSummary.CompressKeeps | crates/lexongraph-directional-pca/src/lib.rs:1432-1452 | compressing keeps all of that under the threshold |
| QuantileSummary.QuantileAxisPlanner.Observe | crates/lexongraph-directional-pca/src/lib.rs:1380-1402 | the planner summarizes all values observed so far, also when this one triggers a compression |
| QuantileSummary.QuantileAxisPlanner.CompressSummary | crates/lexongraph-directional-pca/src/lib.rs:1432-1452 | the compression loop keeps the summary valid for the same values |
| QuantileSummary.ChosenIsNear | crates/lexongraph-directional-pca/src/lib.rs:1454-1496 | an entry overlapping the allowed ranks exists, so the fallback branch is not used, and the chosen value occurs within twice the rank error of the target |
| QuantileSummary.QuantileAxisPlanner.ApproximateQuantileValue | crates/lexongraph-directional-pca/src/lib.rs:1454-1496 | the loop returns the value of the entry whose center is nearest to the target, and its true rank is near the target |
| QuantileSummary.QuantileAxisPlanner.FinishPass | crates/lexongraph-directional-pca/src/lib.rs:1404-1418 | one cut per target, each near its target, and cuts in the order of their targets |
| QuantileSummary.SmallCutsExact | crates/lexongraph-directional-pca/src/lib.rs:1420-1430 | below the compression limit every cut has exactly the target rank |
| QuantileSummary.CompressSpreads | crates/lexongraph-directional-pca/src/lib.rs:1432-1452 | after compression no inner entry can be folded into its right neighbour any more |
| QuantileSummary.RanksIncrease | crates/lexongraph-directional-pca/src/lib.rs:1432-1452 | in a compressed summary the least rank, the greatest rank and the center of entries all increase |
| QuantileSummary.ChoiceFollowsTarget | crates/lexongraph-directional-pca/src/lib.rs:1454-1496 | a greater target never chooses an earlier entry |
| QuantileSummary.PlannedCutsInOrder | crates/lexongraph-directional-pca/src/lib.rs:1308-1328 | the cuts of an axis never decrease, however narrow its bins are; where its targets lie, `TargetsAreEven` says |
| QuantileSummary.TargetsAreEven | crates/lexongraph-directional-pca/src/lib.rs:1308-1319 | with 0 before the first target and the count behind the last, neighbouring targets differ by the quotient of count and bins, rounded down or up |
| QuantileSummary.QuantileAxisPlanner.BinsAreEven | crates/lexongraph-directional-pca/src/lib.rs:1308-1328 | with fewer than 1024 different values, every bin between two cuts holds its even share of the observed values |
| QuantileSummary.CutMissesLittle | crates/lexongraph-directional-pca/src/lib.rs:1420-1430 | with any number of values, a cut misses its target rank by no more than two parts in 1024 of them, rounded up |
| QuantileSummary.ThresholdIsFloor | crates/lexongraph-directional-pca/src/lib.rs:1420-1425 | the compression threshold is the floor of twice the count over the denominator, and at least one |
| AxisBins.BestAxis | crates/lexongraph-directional-pca/src/lib.rs:2003-2016 | the first axis of greatest adjusted weight |
| AxisBins.AllocateFromEigenvalueBits | crates/lexongraph-directional-pca/src/lib.rs:1983-2028 | an error exactly when the cluster count is no power of two; otherwise the bins multiply to the cluster count, and no axis would have more weight per bit with one bit more than any axis has for the bits it got |
| AxisBins.FairIsUnique | crates/lexongraph-directional-pca/src/lib.rs:2003-2020 | weights and budget leave only one such placement, ties included |
| AxisBins.FairByWeightPerBit | crates/lexongraph-directional-pca/src/lib.rs:2003-2016 | without quotients: an axis with weight w and b bits keeps a bit against another with v and a exactly when w (a + 1) exceeds v b, or equals it and comes first |
| AxisBins.RankedInOrder | crates/lexongraph-directional-pca/src/lib.rs:1898-1908 | remainders are what rounding down leaves of each share; the larger one comes first, of equal ones that of the lower axis |
| AxisBins.GiveLeftovers | crates/lexongraph-directional-pca/src/lib.rs:1909-1915 | the leftover units go one each to the first ranked axes |
| AxisBins.AllocateByLargestRemainder | crates/lexongraph-directional-pca/src/lib.rs:1836-1918 | an error exactly when there are fewer clusters than axes or the weights add up to nothing; otherwise all bins are handed out: one and the rounded share to every axis, one more to each of the first ranked axes |
| AxisBins.DesiredIsProportional | crates/lexongraph-directional-pca/src/lib.rs:1884-1887 | the exact shares are in the proportions of the weights |
| AxisBins.RoundedByFraction | crates/lexongraph-directional-pca/src/lib.rs:1884-1915 | every axis gets one bin and its share rounded down or up; one that is rounded up has a larger fraction than one that is not, or the same one and comes first |
| AxisBins.BinIsInterval | crates/lexongraph-directional-pca/src/lib.rs:1545-1561 | with cuts in order, a coordinate falls in a bin exactly when it lies above the cut before and not above the cut behind it |
| AxisBins.PopulatedWithinBudget | crates/lexongraph-directional-pca/src/lib.rs:956-967 | with at most one cut fewer than bins on each axis, the populated cells never exceed the cluster count |
| ValleyCuts.SmoothHistogram | crates/lexongraph-directional-pca/src/lib.rs:2082-2099 | the windowed average of every bucket |
| ValleyCuts.SmoothingSpreadsPoints | crates/lexongraph-directional-pca/src/lib.rs:2082-2099 | one more point adds two to its bucket and one to each beside it, and the border buckets stand in for missing neighbours |
| ValleyCuts.SmoothingConserves | crates/lexongraph-directional-pca/src/lib.rs:2082-2099 | all buckets together are smoothed to four times the number of points |
| ValleyCuts.BestBucketValley | crates/lexongraph-directional-pca/src/lib.rs:2101-2137 | the deepest valley of a segment, the emptier and then the earlier one on a tie; none exactly when the segment has at most one bucket |
| ValleyCuts.ValleyBetweenPeaks | crates/lexongraph-directional-pca/src/lib.rs:2116-2123 | the density of a valley is halfway between its two buckets, its depth is measured from the lower of the highest buckets on either side |
| ValleyCuts.BestIsDeepest | crates/lexongraph-directional-pca/src/lib.rs:2124-2135 | no other valley of the segment is deeper; of the deepest none has a lower density, and of those none is further left |
| ValleyCuts.FindBest | crates/lexongraph-directional-pca/src/lib.rs:2043-2064 | the best valley over all segments that can still be cut, none exactly when all have one bucket |
| ValleyCuts.BestOfAllIsDeepest | crates/lexongraph-directional-pca/src/lib.rs:2043-2064 | the same over all segments |
| ValleyCuts.GreedyIsUnique | crates/lexongraph-directional-pca/src/lib.rs:2040-2070 | the histogram and the number of cuts determine all cuts, ties included |
| ValleyCuts.SelectHistogramValleyCutValues | crates/lexongraph-directional-pca/src/lib.rs:2030-2080 | no cuts without a range or with one bin; otherwise an error exactly for fewer than two buckets, else the bucket edges of the greedy cut, strictly inside the range and increasing, one fewer than the smaller of bins and buckets |
| ValleyCuts.EdgesAreEven | crates/lexongraph-directional-pca/src/lib.rs:2139-2142 | the edges divide the range evenly |
| ReadyPlan.CountsAreOccurrences | crates/lexongraph-directional-pca/src/lib.rs:1101-1121 | after counting, cells stand in strict key order, each with the number of points that fall in it |
| ReadyPlan.KeysByPosition | crates/lexongraph-directional-pca/src/lib.rs:1101-1121 | cells are ordered by the first bin number in which they differ |
| ReadyPlan.BuildReadyPartitionPlan | crates/lexongraph-directional-pca/src/lib.rs:1660-1696 | clusters are numbered contiguously; only cells that may be split get extra clusters, each all it can before a later one gets any; an error exactly in exact mode when cells and their possible splits do not reach the request; with no more cells than requested, as many clusters as requested or as can be had |
| ReadyPlan.FinishCellCounting | crates/lexongraph-directional-pca/src/lib.rs:948-991 | a plan exactly when there are cells, no more than requested clusters, and in exact mode enough to split; extra clusters go to cells that may be split, in turn; there are never more clusters than requested and in exact mode exactly as many |
| ReadyPlan.SharesAddUp | crates/lexongraph-directional-pca/src/lib.rs:1213-1222 | every planned share is at least one and the shares sum to the number of points |
| ReadyPlan.ClustersFillInOrder | crates/lexongraph-directional-pca/src/lib.rs:1142-1150 | the points of a cell fill its first cluster and then its extra clusters in order, one point each |
| ReplayShares.FindCell | crates/lexongraph-directional-pca/src/lib.rs:1249-1258 | the binary search finds the cell of a key exactly when there is one |
| RealizationPass.RealizePartition | crates/lexongraph-directional-pca/src/lib.rs:1122-1152 | the pass gets through exactly when every point has a cell and no cell receives more points than there is room for up to the last cluster; then every cluster has observed its points; otherwise the first point without a cell is refused, or the first one without room makes the index leave the statistics |
| RealizationPass.RoomIsExact | crates/lexongraph-directional-pca/src/lib.rs:1142-1150 | the cluster index of a point exists exactly when its cell has room left, and belongs to the cell exactly while counted points are left |
| RealizationPass.StaysExactly | crates/lexongraph-directional-pca/src/lib.rs:1142-1150 | all points land in clusters of their own cells exactly when no cell receives more points than were counted |
| RealizationPass.CountedDataIsRealized | crates/lexongraph-directional-pca/src/lib.rs:1122-1152 | on the counted data the pass gets through and every cluster observes its planned share |
| RealizationPass.RepeatedPointRunsOut | crates/lexongraph-directional-pca/src/lib.rs:1142-1150 | one counted point, fed twice: the index leaves the statistics |
| RealizationPass.RepeatedPointSpills | crates/lexongraph-directional-pca/src/lib.rs:1142-1150 | with another cell behind it, the repeated point is observed by that cell's cluster instead |
| ReplayShares.ReplayState.ReplayAssign | crates/lexongraph-directional-pca/src/lib.rs:1230-1278 | succeeds exactly when the key has a cell with points left, and then gives the cluster that training gave; an error changes nothing |
| ReplayShares.ReplayAll | crates/lexongraph-directional-pca/src/lib.rs:1230-1278 | replaying a sequence of points assigns what training assigned to them |
| ReplayShares.SharesAreExact | crates/lexongraph-directional-pca/src/lib.rs:1213-1278 | replaying the counted data gives every cluster exactly its planned share |
| ReplayShares.SharesCoverReplay | crates/lexongraph-directional-pca/src/lib.rs:1213-1278 | the planned shares add up to the number of replayed points |
| SortKeys.KeysOrder | crates/lexongraph-pca-chunking/src/lib.rs:533-551 | only equal keys compare equal, and swapping the sides flips the outcome; what comes first, `KeysByParts` says |
| SortKeys.KeysTransitive | crates/lexongraph-pca-chunking/src/lib.rs:533-551 | the comparison of sort keys is transitive |
| SortKeys.SlicesByPosition | crates/lexongraph-pca-chunking/src/lib.rs:545-551 | a slice comes before another exactly when at the first place where they part it has ended or has the smaller element |
| SortKeys.KeysByParts | crates/lexongraph-pca-chunking/src/lib.rs:533-543 | the smaller projection comes first, then the retained coordinates decide by the first different one, then the embedding |
| Boundaries.ScanFindsNext | crates/lexongraph-pca-chunking/src/lib.rs:363-391 | one pass remembers the smallest key above the lower bound and how often it came |
| Boundaries.SomeKeyAbove | crates/lexongraph-pca-chunking/src/lib.rs:255-262 | the "no key above the lower bound" error is not reached |
| Boundaries.PassStep | crates/lexongraph-pca-chunking/src/lib.rs:248-297 | each pass fixes the boundaries that its key settles, or reports a split exactly when equal keys straddle a target |
| Boundaries.DiscoverIsSortAndCut | crates/lexongraph-pca-chunking/src/lib.rs:248-297 | discovery ends with the cut keys of the sorted data exactly when no target splits equal keys, and takes one pass per distinct key up to the last boundary |
| PcaChunking.BoundaryTargets | crates/lexongraph-pca-chunking/src/lib.rs:553-576 | increasing ranks that cut the data into sizes that differ by at most one |
| PcaChunking.AssignIsCut | crates/lexongraph-pca-chunking/src/lib.rs:437-449 | classifying a key is cutting the sorted data at the targets |
| PcaChunking.ChunksAreBalanced | crates/lexongraph-pca-chunking/src/lib.rs:553-576 | every chunk of the cut data is not empty and has the balanced size: the quotient, and one more for the first chunks of the remainder |
| PcaChunking.DiscoveryIsSortAndCut | crates/lexongraph-pca-chunking/src/lib.rs:248-297 | the whole discovery over faithful replays is sorting everything and cutting it |
| PcaChunking.FinishOk | crates/lexongraph-pca-chunking/src/lib.rs:173-246 | finishing any pass leads to a phase that is right about the data of the first pass |
| PcaChunking.PcaChunkingTrainer.IngestBatch | crates/lexongraph-pca-chunking/src/lib.rs:340-398 | the running pass has seen exactly the batches fed to it; malformed embeddings and wrong states are refused |
| PcaChunking.PcaChunkingTrainer.FinishPass | crates/lexongraph-pca-chunking/src/lib.rs:173-190 | a replay that differs from the first pass is refused; otherwise the trainer moves to the phase the pass leads to |
| PcaChunking.PcaChunkingTrainer.CompleteTraining | crates/lexongraph-pca-chunking/src/lib.rs:404-410 | training completes exactly when a pass just made the model ready |
| PcaChunking.PcaChunkingTrainer.Assign | crates/lexongraph-pca-chunking/src/lib.rs:437-449 | the classifier returns the chunk of the key; chunks follow the projection by `ModelOrdersChunks` and are balanced by `ModelIsBalanced` |
| PcaChunking.PcaChunkingTrainer.ModelOrdersChunks | crates/lexongraph-pca-chunking/src/lib.rs:437-449 | a smaller projection never goes to a later chunk; equal projections are told apart by the first different retained coordinate, equal coordinates by the embedding |
| PcaChunking.PcaChunkingTrainer.ModelIsBalanced | crates/lexongraph-pca-chunking/src/lib.rs:437-449 | a completed model gives every chunk its balanced share of the training data |
| Base64.RoundTrip | crates/lexongraph-block-store-azure-table-v2/src/lib.rs:1512-1529 | decoding undoes encoding for every byte string |
| Base64.EncodeDecode | crates/lexongraph-block-store-azure-table-v2/src/lib.rs:1512-1529 | decoding is strict: only encodings decode |
| Base64.QuadIsOneNumber | crates/lexongraph-block-store-azure-table-v2/src/lib.rs:1512-1529 | four symbols are the same 24 bits as three bytes, the most significant first |
| Base64.SymbolsAreTheAlphabet | crates/lexongraph-block-store-azure-table-v2/src/lib.rs:1512-1529 | the alphabet is that of table 1 of RFC 4648 |
| Base64.StandardExamples | crates/lexongraph-block-store-azure-table-v2/src/lib.rs:1512-1529 | examples of section 10 of RFC 4648 |
| TableKeys.RowKeysAreDistinct | crates/lexongraph-block-store-azure-table-v2/src/lib.rs:1581-1597 | different blocks or rows have different keys |
| TableKeys.ChunkNamesAreDistinct | crates/lexongraph-block-store-azure-table-v2/src/lib.rs:1621-1623 | different chunk positions have different column names |
| TableKeys.HexAt | crates/lexongraph-block-store-azure-table-v2/src/lib.rs:1581-1597 | hashes are written as two lower-case hexadecimal digits for every byte |
| TableKeys.RowKeyFormat | crates/lexongraph-block-store-azure-table-v2/src/lib.rs:1581-1597 | a row key is the hash, followed by a dash and the number in at least four digits for other rows than the root; a partition key is the first four characters |
| TableRows.PackFits | crates/lexongraph-block-store-azure-table-v2/src/lib.rs:1154-1198 | greedy packing puts every chunk in some row, in order, each row within the byte and column limits |
| TableRows.PackIsFewest | crates/lexongraph-block-store-azure-table-v2/src/lib.rs:1154-1198 | no layout of the chunks in their order within the byte limit needs fewer rows than greedy packing |
| TableRows.FixedRowBytesAre | crates/lexongraph-block-store-azure-table-v2/src/lib.rs:1625-1635 | the named columns of a root row take 288 bytes, those of other rows ten more while their number has four digits |
| TableRows.FullChunkBytes | crates/lexongraph-block-store-azure-table-v2/src/lib.rs:1637-1647 | a full chunk takes 64 KiB and two bytes for each character of its name |
| RowEncoding.PackGreedily | crates/lexongraph-block-store-azure-table-v2/src/lib.rs:1154-1198 | the packing loop computes the greedy packing |
| RowEncoding.FromRowChunks | crates/lexongraph-block-store-azure-table-v2/src/lib.rs:1200-1278 | the entities built from packed chunks, or the first error |
| RowEncoding.EncodedPropertyBytes | crates/lexongraph-block-store-azure-table-v2/src/lib.rs:1530-1572 | the size of an entity as the service counts it |
| RowEncoding.RowsFromBlockBytes | crates/lexongraph-block-store-azure-table-v2/src/lib.rs:1154-1198 | the rows are the encoding of the bytes |
| RowEncoding.EncodingSucceeds | crates/lexongraph-block-store-azure-table-v2/src/lib.rs:1154-1278 | encoding succeeds exactly when the number of rows fits 32 bits |
| RowEncoding.EncodedRowsMeetLimits | crates/lexongraph-block-store-azure-table-v2/src/lib.rs:1200-1278 | every encoded row meets the column count and byte limits |
| RowCapacity.GreedyIsCapacity | crates/lexongraph-block-store-azure-table-v2/src/lib.rs:1682-1715 | full chunks and one longest extra chunk are the most any row can carry |
| RowCapacity.SearchLongestExtra | crates/lexongraph-block-store-azure-table-v2/src/lib.rs:1695-1710 | the binary search finds the longest chunk that still fits |
| RowCapacity.SimulatedRowCapacityBytes | crates/lexongraph-block-store-azure-table-v2/src/lib.rs:1682-1715 | the simulated capacity is the largest payload of any row within the limits |
| RowCapacity.RootCapacityIs | crates/lexongraph-block-store-azure-table-v2/src/lib.rs:1667-1680 | the capacity the decoder uses for the root row is the true one |
| RowDecoding.DecodeRootMetadata | crates/lexongraph-block-store-azure-table-v2/src/lib.rs:1280-1370 | all checks of a root row, the capacity check included |
| RowDecoding.DecodeBlockBytes | crates/lexongraph-block-store-azure-table-v2/src/lib.rs:1372-1406 | rows are decoded in order, and the first row that disagrees with the root is the error |
| RowDecoding.DecodedIsConsistent | crates/lexongraph-block-store-azure-table-v2/src/lib.rs:1408-1510 | in a block that decodes, every row bears the keys of the block, its own index, the length of the bytes, the number of rows and all chunks it declares |
| RowDecoding.DecodedFits | crates/lexongraph-block-store-azure-table-v2/src/lib.rs:1341-1369 | a block that decodes has no more bytes than its rows can carry and no more rows than it has bytes for |
| RowRoundTrip.EncodedRootIsAccepted | crates/lexongraph-block-store-azure-table-v2/src/lib.rs:1280-1370 | the metadata check accepts every root row that encoding makes |
| RowRoundTrip.BlockRoundTrip | crates/lexongraph-block-store-azure-table-v2/src/lib.rs:1372-1406 | decoding the encoded rows gives back the bytes, for every block that encodes |
| PublishProtocol.NextKeeps | crates/lexongraph-block-store-azure-table-v2/src/lib.rs:89-224 | every step of every writer, request and crash keeps the invariant |
| PublishProtocol.NextKeepsRows | crates/lexongraph-block-store-azure-table-v2/src/lib.rs:89-224 | no step loses or changes a stored row |
| PublishProtocol.RunKeepsInvariant | crates/lexongraph-block-store-azure-table-v2/src/lib.rs:89-224 | the invariant holds in every reachable state |
| PublishProtocol.RunTableGrows | crates/lexongraph-block-store-azure-table-v2/src/lib.rs:89-224 | over any run the table only grows |
| PublishProtocol.RootImpliesAllRows | crates/lexongraph-block-store-azure-table-v2/src/lib.rs:332-343 | at any moment, a stored root row has all its continuation rows stored, exactly as published |
| PublishProtocol.SuccessIsDurable | crates/lexongraph-block-store-azure-table-v2/src/lib.rs:332-343 | once a put has reported success, the root row of its block stays stored in every later state; that puts come to succeed is `PublishProgress` |
| PublishProgress.FirstPutSucceeds | crates/lexongraph-block-store-azure-table-v2/src/lib.rs:332-343 | for every block with at least one row there is a run in which every request is stored and every reply an answer, and it ends with the put reporting success |
| PublishProgress.FallbackPutSucceeds | crates/lexongraph-block-store-azure-table-v2/src/lib.rs:180-224 | from any state, a put whose transaction is too large, or meets rows that exist, succeeds through single rows; if no row was there, every one of them is stored |
| PublishProgress.StepsThatEnd | crates/lexongraph-block-store-azure-table-v2/src/lib.rs:89-194 | a step ends a put in failure exactly on an error response, a lost reply after the sixth attempt or a single row that is too large; in success exactly on a confirmed root row |
| PublishProgress.FailedOnlyWhenRefused | crates/lexongraph-block-store-azure-table-v2/src/lib.rs:89-194 | along any run, a put that failed was refused in one of these ways before |
| PublishProgress.RetriesSurvive | crates/lexongraph-block-store-azure-table-v2/src/lib.rs:100-113 | as many lost replies are survived as attempts are left, each by sending the same rows again |
| BlockReads.CollectContinuationRows | crates/lexongraph-block-store-azure-table-v2/src/lib.rs:345-382 | reads may complete in any order; the result is that of reading one row after the other |
| BlockReads.GetBlockBytes | crates/lexongraph-block-store-azure-table-v2/src/lib.rs:345-382 | the outcome of a get, errors included, by the reads it made |
| BlockReads.ContinuationIsThere | crates/lexongraph-block-store-azure-table-v2/src/lib.rs:345-382 | once the root row was seen, no continuation row can be missing |
| BlockReads.ReadsAreExact | crates/lexongraph-block-store-azure-table-v2/src/lib.rs:345-382 | whatever happens meanwhile, a read gives nothing, a backend error, or exactly the bytes of the block |
| BlockReads.PutThenGet | crates/lexongraph-block-store-azure-table-v2/src/lib.rs:332-382 | after a put that reported success, as every faultless put does by `PublishProgress.FirstPutSucceeds`, a read that gets answers returns the block |
| Cbor.DecodeEncode | crates/lexongraph-block/src/lib.rs:1746-1756 | decoding the encoding of a value gives the value |
| Cbor.EncodingIsPrefixFree | crates/lexongraph-block/src/lib.rs:1746-1756 | an encoding followed by anything determines the value and where it ends |
| Cbor.HeadShape | crates/lexongraph-block/src/lib.rs:689-693 | a head holds the major type in its upper three bits, and the argument there or most significant byte first in the one, two, four or eight bytes behind, by its size |
| Cbor.HeadIsShortest | crates/lexongraph-block/src/lib.rs:689-693 | no other head with the same meaning is shorter |
| Cbor.EncodingByMajorType | crates/lexongraph-block/src/lib.rs:689-693 | the first byte names the kind of the value, and strings follow byte by byte |
| Cbor.StandardIntegers | crates/lexongraph-block/src/lib.rs:689-693 | integers of appendix A of RFC 8949 |
| Cbor.StandardArray | crates/lexongraph-block/src/lib.rs:689-693 | an array of appendix A of RFC 8949 |
| Cbor.StandardMap | crates/lexongraph-block/src/lib.rs:689-693 | a map of appendix A of RFC 8949 |
| CanonicalValue.LengthFirstIsStrict | crates/lexongraph-block/src/lib.rs:680-693 | the order of map keys is a strict total order; `CanonicalKeysInOrder` says which |
| CanonicalValue.CanonicalKeysInOrder | crates/lexongraph-block/src/lib.rs:661-687 | in a canonical map the shorter encoded key comes first, and of two equally long ones that with the smaller byte where they part |
| CanonicalValue.CanonicalizeIsIdempotent | crates/lexongraph-block/src/lib.rs:641-678 | a canonicalized value is its own canonical form |
| CanonicalValue.OnlyDuplicatesFail | crates/lexongraph-block/src/lib.rs:641-678 | the only error that canonicalizing gives is the one for duplicate keys |
| CanonicalValue.MapFailsOnRepeatedKeys | crates/lexongraph-block/src/lib.rs:654-672 | a map has a canonical form exactly when its keys and values have one and no two canonical keys have the same bytes |
| CanonicalValue.CanonicalizeReorders | crates/lexongraph-block/src/lib.rs:641-678 | canonicalizing moves map pairs, at any depth, and does nothing else |
| CanonicalValue.PermutedPairs | crates/lexongraph-block/src/lib.rs:641-678 | permuting map pairs changes neither the outcome nor the result |
| CanonicalValue.ReorderedValues | crates/lexongraph-block/src/lib.rs:641-678 | reordering pairs at any depth changes neither the outcome nor the result |
| BlockFields.ReadIntegerKeyedMap | crates/lexongraph-block/src/lib.rs:1758-1780 | the loop reads a map with distinct integer keys, or reports the first fault |
| BlockFields.FieldsRead | crates/lexongraph-block/src/lib.rs:1758-1780 | a list of fields with small increasing keys reads back as exactly these fields, and is canonical when its values are |
| BlockEntries.BranchEntryRoundTrip | crates/lexongraph-block/src/lib.rs:1568-1704 | parsing a branch entry undoes building its value |
| BlockEntries.LeafEntryRoundTrip | crates/lexongraph-block/src/lib.rs:1581-1731 | parsing the value built from a leaf entry gives the entry with normal metadata, or the error of its metadata |
| BlockEntries.ValidSpecs | crates/lexongraph-block/src/lib.rs:709-719 | which encodings a block may have |
| BlockEntries.SpecLayout | crates/lexongraph-block/src/lib.rs:1558-1566 | the field numbers of an embedding specification |
| BlockEntries.EntryLayouts | crates/lexongraph-block/src/lib.rs:1568-1609 | the field numbers of branch and leaf entries |
| BlockEntries.NormalizeBranchEntries | crates/lexongraph-block/src/lib.rs:515-568 | the scan over adjacent sorted entries decides what the specification of normal entries says: sorted, none twice |
| BlockEntries.EntriesInOrder | crates/lexongraph-block/src/lib.rs:538-546 | normalizing fails exactly when an entry occurs twice; otherwise the same entries stand in the order of their embedding bytes, then of their child hashes |
| BlockEntries.BranchPartsNormalize | crates/lexongraph-block/src/lib.rs:523-548 | the conditions on the parts of a branch: no repeated keys, payloads that fit the descriptor, no entry twice |
| BlockEntries.LeafPartsNormalize | crates/lexongraph-block/src/lib.rs:555-565 | the conditions on the parts of a leaf: no repeated keys and exactly one entry |
| BlockEntries.BranchPartsIgnoreOrder | crates/lexongraph-block/src/lib.rs:515-568 | normal branch parts do not depend on the order of entries or extension pairs |
| BlockV1.NormalizeBlock | crates/lexongraph-block/src/lib.rs:515-568 | the in-place normalization is the normal form of the block |
| BlockV1.NormalizeIsIdempotent | crates/lexongraph-block/src/lib.rs:515-568 | a normalized block is its own normal form |
| BlockV1.NormalizesExactly | crates/lexongraph-block/src/lib.rs:515-568 | a block has a normal form exactly when version, level, encoding and parts are in order |
| BlockV1.SerializedLayout | crates/lexongraph-block/src/lib.rs:1506-1556 | what is written: fields 0 to 3 for version, level, specification and entries, and 15 for extensions if there are any |
| BlockV1.DeserializeSerialize | crates/lexongraph-block/src/lib.rs:429-453 | what serializes is read back as its normal form |
| BlockV1.AcceptsExactlySerializations | crates/lexongraph-block/src/lib.rs:439-453 | deserializing accepts exactly the bytes that serializing makes, under the right hash |
| BlockV1.SameBytesSameBlock | crates/lexongraph-block/src/lib.rs:429-437 | blocks serialize to the same bytes exactly when they have the same normal form |
| BlockV1.SerializeIgnoresOrder | crates/lexongraph-block/src/lib.rs:515-568 | the bytes do not depend on the order of entries or pairs |
| BlockV2.NormalizeIsIdempotent | crates/lexongraph-block/src/v2.rs:171-293 | a normalized block is its own normal form, and its content is canonical |
| BlockV2.SerializedLayout | crates/lexongraph-block/src/v2.rs:122-130 | what is written: fields 0 to 2 for version, type name and normal content |
| BlockV2.ContentLayouts | crates/lexongraph-block/src/v2.rs:79-102 | the field numbers in the content of branches and leaves |
| BlockV2.TypeNames | crates/lexongraph-block/src/v2.rs:79-120 | the two reserved type names |
| BlockV2.DeserializeSerialize | crates/lexongraph-block/src/v2.rs:122-165 | what serializes is read back as its normal form |
| BlockV2.AcceptsExactlySerializations | crates/lexongraph-block/src/v2.rs:132-165 | deserializing accepts exactly the bytes that serializing makes, under the right hash |
| BlockV2.BranchContentNormalizes | crates/lexongraph-block/src/v2.rs:196-247 | the content of a branch normalizes exactly when level, descriptor and parts are in order, to the normal parts |
| BlockV2.LeafContentNormalizes | crates/lexongraph-block/src/v2.rs:249-293 | the content of a leaf normalizes exactly when descriptor and parts are in order, to the normal parts |
| BlockV2.ClassifyBuiltBranch | crates/lexongraph-block/src/v2.rs:79-90 | a branch that could be built classifies as its normalized parts |
| BlockV2.ClassifyBuiltLeaf | crates/lexongraph-block/src/v2.rs:92-102 | a leaf that could be built classifies as its normalized parts |
| BlockV2.RebuildClassified | crates/lexongraph-block/src/v2.rs:370-432 | every normal block has a typed view, and building from the view gives the block back |
| BlockV2.BuildBranchIgnoresOrder | crates/lexongraph-block/src/v2.rs:196-247 | a built branch does not depend on the order of entries or extension pairs |
| BlockV2.BuildLeafIgnoresOrder | crates/lexongraph-block/src/v2.rs:249-293 | a built leaf does not depend on the order of metadata or extension pairs |
| BlockV2.CustomIgnoresOrder | crates/lexongraph-block/src/v2.rs:104-120 | a custom block does not depend on the order of pairs in its content |
| VersionedBlock.DeserializeSerialize | crates/lexongraph-block/src/lib.rs:455-483 | a block of either version is read back as its normal form |
| VersionedBlock.AcceptsExactlySerializations | crates/lexongraph-block/src/lib.rs:462-483 | the versioned reader accepts exactly the serializations of both versions |
| VersionedBlock.SameBytesSameBlock | crates/lexongraph-block/src/lib.rs:455-460 | blocks of either version serialize to the same bytes exactly when they have the same normal form |
| EbcpBits.ExtractLsbFirstBits | crates/lexongraph-block/src/lib.rs:1053-1068 | every read is in bounds and the value is that of the bits, lowest first |
| EbcpBits.PaddingIsZeroBits | crates/lexongraph-block/src/lib.rs:1124-1139 | the check on the last byte says that all bits behind the payload are zero |
| EbcpBits.UnpackPack | crates/lexongraph-block/src/lib.rs:1001-1051 | packing codes that fit gives an accepted payload, and unpacking gives the codes back |
| EbcpBits.PackUnpack | crates/lexongraph-block/src/lib.rs:1001-1051 | every accepted payload is the packing of exactly the codes it unpacks to |
| EbcpBits.PackedNumber | crates/lexongraph-block/src/lib.rs:1053-1068 | read as a little-endian number, a packed payload has the codes as its digits, the first code lowest |
| EbcpBits.CenteredRange | crates/lexongraph-block/src/lib.rs:1040-1048 | centered codes lie within the signed range of their width |
| EbcpBits.CenteredSteps | crates/lexongraph-block/src/lib.rs:1040-1048 | the lowest code stands for the least value, and neighbouring codes for neighbouring values |
| EbcpBits.ScaledAt | crates/lexongraph-block/src/lib.rs:1040-1050 | a value is its code less half the range of its width, times the scale of its dimension |
| EbcpBits.SumBits | crates/lexongraph-block/src/lib.rs:1070-1122 | the bit length is the sum of the widths, or an overflow error |
| EbcpBits.UnpackQuantizedPayload | crates/lexongraph-block/src/lib.rs:1001-1051 | an error exactly when the counts of widths and scales differ, the payload has not the length of all widths together, a width is zero or a scale is negative; otherwise the centered codes of the payload, scaled |
| EbcpBits.PackedCodesDecode | crates/lexongraph-block/src/lib.rs:1001-1051 | what was packed is decoded to the packed codes, centred and scaled |
| EbcpBits.UnpackQuantizedPayloadUniform | crates/lexongraph-block/src/lib.rs:959-999 | the uniform decoder gives what the variable one gives with constant widths |
| EbcpDescriptor.DescriptorWidthsAreValid | crates/lexongraph-block/src/lib.rs:1262-1371 | every width an accepted descriptor declares is between 1 and 31, one for each dimension |
| EbcpDescriptor.CheckIgnoresOrder | crates/lexongraph-block/src/lib.rs:721-737 | whether all payload lengths are accepted does not depend on the order of entries |
| EbcpDescriptor.CheckAccepts | crates/lexongraph-block/src/lib.rs:721-737 | the check accepts exactly when the descriptor is accepted and every payload has the declared number of bits in as few bytes as hold them, with zeros behind |
| EbcpDescriptor.AcceptedParts | crates/lexongraph-block/src/lib.rs:1181-1218 | an accepted descriptor has exactly the parts that its encoding is named for |
| EbcpDescriptor.FiniteByExponent | crates/lexongraph-block/src/lib.rs:1373-1401 | a float is finite exactly when its eight bits of exponent are not all ones |
| EbcpRoundTrip.DescriptorRoundTrip | crates/lexongraph-block/src/lib.rs:385-390 | a valid descriptor that was written into the extension map is read back from its normal form |
| EbcpRoundTrip.AcceptedIsValid | crates/lexongraph-block/src/lib.rs:1148-1371 | every descriptor that is accepted is valid: sizes, finite floats, scales and widths |
| Recency.DropUntilIsShortest | crates/lexongraph-block-store-fs/src/lib.rs:690-733 | eviction stops at the shortest prefix after which the rest fits |
| Recency.LastTouched | crates/lexongraph-block-store-memory/src/lib.rs:158-197 | keeping only the last ids before a touch loses nothing that the touch on all ids would keep |
| Recency.OrderedByLastTouch | crates/lexongraph-block-store-memory/src/lib.rs:158-216 | ids in recency order are the touches that are the last ones of their ids, as they came |
| MemoryStore.KeptOfBlocks | crates/lexongraph-block-store-memory/src/lib.rs:158-216 | one insert into a store of k blocks keeps the k ids touched last |
| MemoryStore.KeptOfBytes | crates/lexongraph-block-store-memory/src/lib.rs:158-197 | one insert into a store bounded in bytes keeps the longest run of the other ids touched last that leaves room |
| MemoryStore.HoldsMostRecent | crates/lexongraph-block-store-memory/src/lib.rs:158-216 | over any run a store of k blocks holds exactly the k ids touched last, in the order that `Recency.OrderedByLastTouch` spells out |
| MemoryStore.State.FindLru | crates/lexongraph-block-store-memory/src/lib.rs:206-216 | the resident id of least recency other than the excluded one |
| MemoryStore.State.EvictLruExcluding | crates/lexongraph-block-store-memory/src/lib.rs:206-216 | removes that entry and its bytes from the account |
| MemoryStore.State.MakeRoom | crates/lexongraph-block-store-memory/src/lib.rs:176-190 | evicts the oldest others and no more of them than needed, and terminates |
| MemoryStore.State.InsertOrRefresh | crates/lexongraph-block-store-memory/src/lib.rs:158-197 | accounting stays exact and within capacity; the payload is last in recency; an oversized payload changes nothing |
| MemoryStore.State.Refresh | crates/lexongraph-block-store-memory/src/lib.rs:199-204 | a resident block becomes the most recent and nothing else changes |
| MemoryStore.State.GetBlockBytes | crates/lexongraph-block-store-memory/src/lib.rs:254-268 | returns the resident bytes and counts as a touch |
| FsCache.PlanLoop | crates/lexongraph-block-store-fs/src/lib.rs:690-733 | the planned evictions are the shortest prefix of the others in recency order that makes room |
| FsCache.CacheStore.PlanEvictions | crates/lexongraph-block-store-fs/src/lib.rs:690-733 | an error exactly for payloads larger than the cache; the "failed to fit" error is not reached |
| FsCache.CacheStore.EvictPlanned | crates/lexongraph-block-store-fs/src/lib.rs:641-646 | evictions go along the plan up to its end or the first file that cannot be removed, with books and directory consistent |
| FsCache.CacheStore.PublishBlockBytes | crates/lexongraph-block-store-fs/src/lib.rs:508-554 | succeeds exactly when publishing works and a file that is already there has the same bytes; a failure leaves the directory as it was |
| FsCache.CacheStore.PutBlockBytes | crates/lexongraph-block-store-fs/src/lib.rs:635-653 | stores like a byte-bounded memory store; fails exactly for an oversized payload, a planned file that cannot be removed, a failing publication or other bytes under the id, and accounting then still matches the directory |
| FsCache.CacheStore.ObserveRead | crates/lexongraph-block-store-fs/src/lib.rs:763-768 | a read refreshes the entry and changes nothing else |
| FsCacheInit.EvictCount | crates/lexongraph-block-store-fs/src/lib.rs:414-429 | the shortest prefix of the files by age whose removal makes the rest fit |
| FsCacheInit.RetainsNewest | crates/lexongraph-block-store-fs/src/lib.rs:394-456 | the files are ordered by the time of their modification, then by id, and what is retained is the longest run of newest files that fits |
| FsCacheInit.InitializeCacheMode | crates/lexongraph-block-store-fs/src/lib.rs:394-456 | opens exactly when the sizes do not overflow and every evicted file can be removed; then the cache holds the newest files that fit, oldest first in recency, with exact accounting and a matching directory |
| Overlay.CachesDoNotShow | crates/lexongraph-block-store-overlay/src/lib.rs:286-313 | with backed caches, a read through all layers finds what it finds without the cache layers |
| Overlay.OverlayBlockStore.GetBlockBytes | crates/lexongraph-block-store-overlay/src/lib.rs:286-313 | the answer of the first layer that has the block and does not fail, with the caches above it refilled and all counters kept; otherwise an error exactly when some layer failed; without failures the answer of the layers that are no caches |
| Overlay.OverlayBlockStore.PutBlockBytes | crates/lexongraph-block-store-overlay/src/lib.rs:256-284 | every writable layer is asked and no other changes; success exactly when there is a writable layer and all of them succeed, and then all hold the block; cached blocks stay backed |
| Overlay.OverlayBlockStore.RefillCacheLayers | crates/lexongraph-block-store-overlay/src/lib.rs:230-243 | exactly the caches above the hit are asked to store the block, those that accept and keep it hold it, and all stay backed |
| Overlay.OverlayBlockStore.CacheEvicts | crates/lexongraph-block-store-overlay/src/lib.rs:256-313 | a cache that drops blocks on its own leaves the invariant in place |
| Overlay.OverlayBlockStore.EnumerateBlockIds | crates/lexongraph-block-store-overlay/src/lib.rs:331-367 | an error exactly when some layer cannot list its ids; otherwise every stored id once, the ids of the layers without caches |
| PcaAccumulator.MeanOfConcat | crates/lexongraph-pca/src/lib.rs:272-303 | the joint mean of two sample sets |
| PcaAccumulator.ScatterOfConcat | crates/lexongraph-pca/src/lib.rs:305-314 | the joint scatter by its two-pass definition is the sum of both and the scaled products of the distance of the means |
| PcaAccumulator.UpdateIsExact | crates/lexongraph-pca/src/lib.rs:247-266 | one more sample moves mean and scatter exactly as their two-pass definitions do |
| PcaAccumulator.OrderDoesNotMatter | crates/lexongraph-pca/src/lib.rs:224-318 | mean and scatter depend on which samples there are, not on their order |
| PcaAccumulator.Accumulator.Update | crates/lexongraph-pca/src/lib.rs:224-270 | after any history the accumulator holds the two-pass mean and scatter of all samples; errors leave it as it was |
| PcaAccumulator.Accumulator.Merge | crates/lexongraph-pca/src/lib.rs:272-318 | merging gives the two-pass mean and scatter of both histories together |
| PcaAccumulator.Accumulator.SplitDoesNotMatter | crates/lexongraph-pca/src/lib.rs:224-318 | however the samples came in, the fields are the same |
| PcaTransforms.Apply | crates/lexongraph-pca/src/lib.rs:430-445 | the projection of the centered vector, or an error exactly on a wrong dimension or shape |
| PcaTransforms.Reconstruct | crates/lexongraph-pca/src/lib.rs:451-463 | the mean plus the weighted components, or an error exactly on a wrong dimension or shape |
| PcaTransforms.ApplyAffine | crates/lexongraph-pca/src/lib.rs:814-826 | the affine map, or an error exactly on a wrong dimension or shape |
| PcaTransforms.ComposedActsInTurn | crates/lexongraph-pca/src/lib.rs:828-863 | the composed matrix and bias act as the second map after the first |
| PcaTransforms.Compose | crates/lexongraph-pca/src/lib.rs:828-863 | composing succeeds exactly on operable maps of matching dimensions, and acts as applying them in turn |
| PcaTransforms.ToAffine | crates/lexongraph-pca/src/lib.rs:720-740 | the affine form acts as the projection |
| PcaTransforms.InverseAffine | crates/lexongraph-pca/src/lib.rs:742-758 | the affine form acts as the reconstruction |
| PcaTransforms.DeltaReconstructing | crates/lexongraph-pca/src/lib.rs:1005-1021 | the delta acts as reconstructing with one system and projecting with the other |
| PcaTransforms.DeltaExact | crates/lexongraph-pca/src/lib.rs:992-1003 | refuses exactly what the reconstructing form refuses and sources that lose dimensions |
| PcaTransforms.ProjectReconstructed | crates/lexongraph-pca/src/lib.rs:430-463 | with orthonormal components, projecting a reconstruction gives the coordinates back |
| PcaTransforms.RebaseToSelf | crates/lexongraph-pca/src/lib.rs:1005-1021 | moving from an orthonormal system to itself changes nothing |
| TreeReport.ObserveLevelSummarizes | crates/lexongraph-block-inspect/src/main.rs:744-774 | exactly the levels that occur are listed, each with the totals and extremes of its own blocks |
| TreeReport.LargestStep | crates/lexongraph-block-inspect/src/main.rs:864-874 | cutting the list to sixteen after every block loses none of the sixteen largest overall |
| TreeReport.LargestMeans | crates/lexongraph-block-inspect/src/main.rs:864-874 | nothing left out of the list has more bytes than anything listed, nor as many at a higher level, nor as many at the same level under a smaller hash |
| TreeReport.LargestInOrder | crates/lexongraph-block-inspect/src/main.rs:864-874 | the list runs from the largest block down |
| TreeReport.InsertLargestBlock | crates/lexongraph-block-inspect/src/main.rs:864-874 | sorting and truncating after each insertion leaves the sixteen largest of all visited blocks, in order |
| TreeReport.ObserveBlock | crates/lexongraph-block-inspect/src/main.rs:246-317 | the report describes the blocks visited so far: counts, extremes, violations, levels and largest blocks |
| TreeInspection.VisitedIsReachable | crates/lexongraph-block-inspect/src/main.rs:241-304 | when the queue is empty, exactly the reachable hashes have been visited |
| TreeInspection.ReferencesCounted | crates/lexongraph-block-inspect/src/main.rs:301-303 | the references queued are the children counted |
| TreeInspection.AnalyzeTree | crates/lexongraph-block-inspect/src/main.rs:226-325 | terminates; succeeds exactly when every reachable block loads; visits each reachable hash once in breadth-first order; unique and repeated references add up to one and all children |

## Findings

| lemma | source | finding |
|---|---|---|
| RealizationPass.RepeatedPointRunsOut | crates/lexongraph-directional-pca/src/lib.rs:1142-1150 | The realization pass counts a point and indexes the cluster statistics without comparing with the planned count; the fingerprint is compared at the end of the pass only. One counted point fed twice makes the index leave the statistics. `RealizationPass.RealizePartition` holds the exact condition. |
| RealizationPass.RepeatedPointSpills | crates/lexongraph-directional-pca/src/lib.rs:1142-1150 | With another cell behind it, the same input is observed by that cell's cluster until the fingerprint refuses the pass. `RealizationPass.StaysExactly` holds the exact condition. |
| DcbcStreaming.DerivationDecidesSatisfiability | crates/lexongraph-dcbc-streaming/src/lib.rs:328-382 | Balance constraints that some assignment meets are refused when the number of clusters times the greatest size overflows `usize`; with 64 bits that takes an implicit maximum over more than 2^32 points. |

## Left out

Statements that are weaker than, or outside of, what the code does:

- MinCostFlow.MinCostFlow.ShortestPaths: costs are exact reals, so the comparisons with a tolerance of 1e-12 are strict here; rounding of `f64` is not modelled.
- MinCostFlow.HasPotential: from a potential follows that there is no negative cycle; the converse is not stated, since the solver starts with a potential.
- MinCostFlow.MinCostFlow.AddEdge: asks for two different end points, as all its callers have them.
- MinCostFlow.MinCostFlow.Augment: the second walk along the predecessors has no step counter, because the tree is proved free of cycles; the error for cyclic predecessors has no counterpart there.
- AssignmentSolver.SolveLexicographicAssignment: asks for distances between 0 and 2, one per point and cluster, which is what `DcbcStreaming.DistanceMatrix` is proved to give.
- DcbcStreaming.AssignPoints: the farthest-point start, the recomputation of centroids and the objective of a pass are left out; points and centroids are given unit vectors.
- DcbcStreaming.DerivationDecidesSatisfiability: asks for a positive cluster count and constraints that passed validation, as the code checks before.
- QuantileSummary.QuantileAxisPlanner.BinsAreEven: asks for values that all differ, as many as were announced; with equal values no cut can make even bins.
- QuantileSummary.QuantileAxisPlanner.Observe: values are ordered by `total_cmp` and so modelled as integers.
- AxisBins.AllocateFromEigenvalueBits: the weights `ln(1 + max(score, 0))` are given as numbers that are not negative.
- AxisBins.AllocateByLargestRemainder: the exponentials of the damped scores are given as numbers that are not negative, and division is exact.
- AxisBins.PopulatedWithinBudget: the axis coordinates of a point are given as reals, without their projection.
- ValleyCuts.SelectHistogramValleyCutValues: edges are exact, so two different buckets always give two different cuts, which `f32` edges need not. An empty histogram is answered before the loop, which would find nothing to cut.
- ReadyPlan.BuildReadyPartitionPlan: whether a cell may be split is given as a predicate on its key.
- ReplayShares.ReplayState.ReplayAssign: the key of a point is given; projecting the embedding and the check on the length of the state are left out.
- RealizationPass.RealizePartition: the keys of the points are given, all at once instead of batch by batch; a cluster's statistics are the list of its points, from which count and sums follow. The final comparison of fingerprints is left out.
- ReadyPlan.FinishCellCounting: the comparison of fingerprints before it is left out.
- PcaChunking.PcaChunkingTrainer.FinishPass: the projection a finished analysis yields is given as a function of the data, and the fingerprint of a pass is the sequence of its embeddings, so collisions of fingerprints do not occur.
- SortKeys.KeysOrder: components are ordered by `total_cmp` and so modelled as integers.
- PcaAccumulator.Accumulator.Update: entries are exact reals; rounding and the refusal of values that are not finite are left out.
- PcaAccumulator.Accumulator.Merge: as for `Update`; merging an accumulator into itself cannot be written in the source and is excluded.
- PcaTransforms.Apply: entries are exact reals; rounding to `f32` and the checks for finite numbers are left out.
- PcaTransforms.Compose: as for `Apply`; chains of deltas are left out.
- RowEncoding.RowsFromBlockBytes: asks for blocks of less than 2^63 bytes, the range of the stored length.
- TableRows.PackFits: likewise.
- BlockReads.ReadsAreExact: retries and their delays are part of the environment: a read that never succeeds is `Unavailable`.
- PublishProtocol.SuccessIsDurable: no step of the model deletes rows; the code has none either.
- PublishProgress.RetriesSurvive: is stated for the transaction and the root row; a row of the fallback is sent again in the same way.
- Cbor.DecodeEncode: floats, tags, big integers and indefinite lengths are left out, and so is the recursion limit of the decoder; text is any sequence of bytes, without a check for UTF-8.
- BlockV1.AcceptsExactlySerializations: SHA-256 is any function from bytes to hashes; a collision is not excluded and not needed. Inputs have at most 2^64 - 1 bytes.
- BlockV2.AcceptsExactlySerializations: likewise.
- BlockV2.BranchContentNormalizes: which of several faults is reported is not stated, only that one is.
- BlockV2.LeafContentNormalizes: likewise.
- EbcpBits.UnpackQuantizedPayload: scaling is exact, over reals; the refusal of scales that are not finite is left out. Widths above 31 bits, which no descriptor may declare, are not covered.
- EbcpDescriptor.DescriptorWidthsAreValid: vectors of floats are kept as bytes, of which only sign and finiteness are read.
- MemoryStore.State.GetBlockBytes: is one step, where the source takes the lock once to look and once to refresh.
- MemoryStore.State.InsertOrRefresh: recency counters do not wrap after 2^64 touches, and saturating arithmetic on resident bytes is exact since the account is proved exact.
- FsCache.CacheStore.PublishBlockBytes: staging, flushing and persisting one file is a single step; whether it fails is given.
- FsCache.CacheStore.PutBlockBytes: which files cannot be removed is given; other processes that touch the directory are left out.
- FsCacheInit.InitializeCacheMode: reading the directory is given as a list of files that agrees with it, and so are the files that cannot be removed; the check of the configured size is left out.
- Overlay.OverlayBlockStore.GetBlockBytes: which reads fail and how each layer answers a put is given; layers hold the one content a hash determines; layers that return other bytes are left out.
- Overlay.OverlayBlockStore.EnumerateBlockIds: which layers fail is given; ids shown before a failure are not stated.
- TreeInspection.AnalyzeTree: what loading, decoding and classifying a hash gives is a finite map; rendering the report as JSON is left out.

Parts of the repository without a counterpart:

- Eigendecomposition, truncation, quantization and serialization of principal component systems, and the scoring of axes.
- Adaptive planning policy, the collection of density histograms and all telemetry.
- Texts of error messages; only which error occurs is modelled.
- HTTP, multipart batches, page enumeration and retry delays of the Azure store, and its enumeration of block ids.
- The first Azure table store, the blob, redb and zip stores.
- GPU kernels, embedding providers, search, command lines.
