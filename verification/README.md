# Verified model of kubectl-detective

kubectl-detective measures network behaviour in a Kubernetes cluster: eBPF probes in the kernel keep counters
and latency histograms per connection, user space groups them by resolved names, agents send cumulative
snapshots to an aggregator, and reports rank the results. This project models those parts and proves what the
numbers on the screen say about the traffic behind them.

The modules, along the path of the data:

- **Machine, Options, Readings, Strings, Sums, Folds, Sorting** hold wrap-around words, lookup results, table
  passes, decimal text, sums over sets and sequences, order-insensitive folds, and the contract of Go's
  sorting functions.
- **Bucketing, RttValues, CellTables, RttProbe, ConcurrentProbe, SequentialProbe** are the latency side of the
  kernel: the log2 buckets, the algebra of latency values, cells updated in place, the probe one packet at a
  time, and the probe as interleaved atomic steps, which agree when packets come one by one.
- **LatencyGroups, Percentile, PercentileAccuracy, LatencyTracker, LatencyRecords, PercentileOrder,
  EndToEndLatency** are the latency report: grouping by pair, percentiles from the histogram against
  percentiles of the samples, and what each printed record says about the raw samples.
- **Addresses, PairKeys** are address texts and the string keys of name pairs.
- **Snapshots, TopList, Aggregator, ClusterLatency, SnapshotProtocol** are the snapshots, the cluster-wide
  reports and the protocol between agents and aggregator.
- **ByteTallies, Throughput, ThroughputRuns** are the throughput tracker and whole runs of it.
- **ServiceResolver, ResolverRuns** are the name cache fed by three event streams.
- **DnsMatcher** matches DNS queries and responses; **ServiceGraph, AsciiMap, AmbiguousDrawings** draw the
  dependency graph and tell which graphs look alike.

Code that updates things in place is imperative here too: classes for cells, tables, trackers, the store, the
resolver and the graph, each method proved against a function of the old state. What the source promises is
then proved about those functions. Sums, counts and histogram cells wrap at their word widths unless a
statement says that they do not. What a function used in many statements means is said once in terms of the
raw inputs alone: of segments, rows, entries, addresses and characters.

Where code and comments disagree, the model follows the code. The comment at internal/latency/tracker.go:120
says that the upper edge of a bucket is returned; the code returns the midpoint, and the error bounds are
those of the midpoint.

Some expectations turn out false. Each is stated with its exact condition:

- A reported p95 exceeds the p99 exactly when the lower rank falls into the last cell, the higher rank lies
  beyond all recorded samples, and the maximum is 0 or above 2^26, so that it does not cut both down to the
  fallback value (`PercentileOrder.RecordPercentilesOrdered`). A table read while three probes are between
  their additions gives such a record (`PercentileOrder.PercentilesCanSwap`).
- The stored DNS maximum of a pair is the longest of its latencies exactly when all of them are below 2^32
  microseconds (`DnsMatcher.StoredMaximumIff`); a longer one can make it go down
  (`DnsMatcher.MaximumCanDrop`).
- A failed `Snapshot` displays the rows it saw before the error, unlike `Watch`
  (`ThroughputRuns.FailedSnapshotKeepsRow`); it changes nothing exactly when all those rows were already
  displayed with at least their bytes (`ThroughputRuns.SnapshotUnchangedIff`).
- A restarted agent wipes what its node had reported (`SnapshotProtocol.RestartedAgentLosesBytes`); the total
  of a pair survives exactly when the node had stored nothing for it (`SnapshotProtocol.RestartLosesBytes`).
- Service and slice events commute exactly when `ResolverRuns.Independent` holds
  (`ResolverRuns.CommuteIffIndependent`).
- Below 2^32 microseconds, the stored DNS minimum of a pair is the shortest of its latencies exactly when none
  of them is 0 or the latest one is (`DnsMatcher.StoredMinimumIff`, `DnsMatcher.MinimumCanRise`).
- Two graphs can have one drawing. For names without line ends this is so exactly when their rows look the
  same (`AmbiguousDrawings.SameTextIff`): a destination can look like another one with its count behind it
  (`AmbiguousDrawings.LabelsCollideIff`, `AmbiguousDrawings.BlanksAreAmbiguous`), and an arrow inside a source
  can as well stand before the destination (`AmbiguousDrawings.ShiftsIff`,
  `AmbiguousDrawings.ArrowsAreAmbiguous`).

## Model

| member | source | states |
|---|---|---|
| Bucketing.RttLog2 | bpf/tcp_connect.bpf.c:84-109 | the branch-and-shift code returns r with 2^r <= v < 2^(r+1), and 0 for 0 |
| Bucketing.BucketCovers | bpf/tcp_connect.bpf.c:59-60 | a value is in bucket b if and only if b covers it, the last bucket being open above |
| Bucketing.BucketMonotone | bpf/tcp_connect.bpf.c:421-423 | the capped bucket index is monotone in the latency |
| CellTables.RttCell.Absorb | internal/latency/tracker.go:59-69 | one merge into a cell in place, all 27 histogram cells included, is `Merge` of old contents and value |
| CellTables.RttCell.AbsorbEntry | internal/aggregator/store.go:198-209 | the loop over the wire histogram, up to the shorter of 27 cells and its length, merges it as if zero-padded or truncated |
| CellTables.RttCell.Observe | bpf/tcp_connect.bpf.c:426-433 | one sample added to a cell in place is `Push` |
| CellTables.CellTable.Absorb | internal/latency/tracker.go:54-69 | merging under a key changes that key's cell only; a new cell started at the value's own extremes ends as if it started from zero |
| CellTables.CellTable.AbsorbEntry | internal/aggregator/store.go:194-209 | merging a snapshot entry under a key changes that key's cell only |
| CellTables.CellTable.Observe | bpf/tcp_connect.bpf.c:425-433 | one sample under a key that has a cell is pushed into that cell, and no other cell changes |
| CellTables.CellTable.Insert | bpf/tcp_connect.bpf.c:434-441 | a first sample under a key makes a cell that equals the merge of that one sample into nothing |
| RttProbe.KprobeTcpRcvEstablished | bpf/tcp_connect.bpf.c:402-444 | the handler updates the flow's cell, inserts a new one, or changes nothing for a zero RTT or a full map |
| RttValues.MergeStepsCommute | internal/latency/tracker.go:46-72 | merges of values, and of samples, may be swapped, with 0 as "no minimum yet" |
| RttValues.TwoLevelsRefineOne | internal/latency/tracker.go:46-72 | however samples are split into flows and in whatever order flows are merged, the result is that of one accumulator over all samples |
| RttValues.AccTotals | bpf/tcp_connect.bpf.c:427-428 | sum and count are those of the samples modulo 2^64 |
| RttValues.AccCells | bpf/tcp_connect.bpf.c:429 | each histogram cell counts the samples of its bucket modulo 2^32 |
| RttValues.AccExtremes | bpf/tcp_connect.bpf.c:430-433 | the kept maximum is the true maximum of the samples, and the kept minimum the true minimum when no sample is 0 |
| RttValues.MergeAllAddsUp | internal/latency/tracker.go:59-71 | merging any values adds up their sums and counts modulo 2^64 and their cells modulo 2^32 |
| RttValues.MergeAllExtremes | internal/latency/tracker.go:61-66 | the merged maximum is the greatest one, the merged minimum the least that is not 0 |
| RttProbe.RunAccumulates | bpf/tcp_connect.bpf.c:425-442 | after any run each recorded flow holds exactly the accumulation of all its samples, and a flow is missing only if the map is full |
| RttProbe.RttIsEighth | bpf/tcp_connect.bpf.c:411 | a sample is the smoothed RTT divided by 8, rounded down |
| RttProbe.RecordedFlowAddsUp | bpf/tcp_connect.bpf.c:409-442 | after any run a recorded flow's count, sum and cells are those of srtt / 8 over its own segments with srtt of at least 8 |
| RttProbe.RecordedFlowExtremes | bpf/tcp_connect.bpf.c:430-442 | its extremes are those of srtt / 8 over these segments, and a flow with one is missing only if the map holds 65536 |
| SequentialProbe.OneByOneIsSequential | bpf/tcp_connect.bpf.c:402-444 | the interleaved steps, run one packet after the other, leave the sequential probe's table, flow by flow and word by word |
| RttProbe.SamplesInRange | bpf/tcp_connect.bpf.c:409-413 | every sample that reaches a flow is positive and below 2^29 |
| RttProbe.MergedFlowsAreOneAccumulator | internal/latency/tracker.go:46-72 | merging the cells of any set of flows equals one accumulator over their interleaved samples |
| LatencyGroups.GroupsPermute | internal/latency/tracker.go:46-72 | the order of the kernel table's rows does not affect the groups |
| LatencyGroups.GroupIsMerge | internal/latency/tracker.go:46-72 | there is a group for a pair if and only if it has a non-empty row, and it is the merge of those rows |
| LatencyRecords.RecordIsResolved | internal/latency/tracker.go:51-53 | the source of a record is the resolver's answer for the source address of a counted row, its destination that for the destination address |
| LatencyRecords.CountedRowIsReported | internal/latency/tracker.go:48-58 | every counted row has a record under the answers for its two addresses |
| LatencyRecords.RecordAddsUp | internal/latency/tracker.go:94-102 | for any rows a record counts the samples of the counted rows of its names, and its average is the quotient of their sum, modulo 2^64 |
| LatencyRecords.RecordExtremes | internal/latency/tracker.go:61-66 | for any rows its maximum is their greatest, its minimum their least that is not 0 |
| LatencyRecords.CapsAtMaximum | internal/latency/tracker.go:85-93 | p95 and p99 are the histogram's, or the maximum where that is lower and not 0 |
| LatencyRecords.ReportDescends | internal/latency/tracker.go:107-109 | an earlier record has no lower p95 |
| PairKeys.PairRoundTrip | internal/latency/tracker.go:53-82 | joining and splitting returns the pair if and only if the source name is free of NUL |
| PairKeys.SplitRoundTrip | internal/latency/tracker.go:78-82 | a key with a separator is rebuilt from its two parts, so different keys never give the same record |
| PairKeys.PairKeyInjective | internal/aggregator/store.go:92-108 | distinct pairs with NUL-free sources never share an aggregate |
| Percentile.PercentileFromHist | internal/latency/tracker.go:121-152 | the value of the first cell at which the cumulative count reaches the rank, or the fallback when none does |
| Percentile.RankBucket | internal/latency/tracker.go:136-148 | the cell found is the bucket of the sample at that rank in sorted order |
| Percentile.CumulativeIsSum | internal/latency/tracker.go:136-138 | the running count is the sum of the cells so far |
| PercentileAccuracy.TargetIsFloor | internal/latency/tracker.go:125-134 | the rank is count * p rounded down, at least 1; for p of 1 or more it is the count |
| PercentileAccuracy.SampleRankIsNearest | internal/latency/tracker.go:163-177 | the exact rank is count * p rounded to the nearest, at least 1; for p of 1 or more it is the count |
| PercentileAccuracy.CellValuesAre | internal/latency/tracker.go:139-151 | a cell stands for the middle of its two edges, the first for 1, and beyond all cells 2^26 is shown |
| PercentileAccuracy.HistogramErrorBound | internal/latency/tracker.go:83-93 | for the reported value e and the exact sample x at the rank: 2e <= 3x, 3x < 4e below 2^27, 3x < 16e below 2^29 |
| PercentileAccuracy.PercentileFromSamples | internal/latency/tracker.go:156-179 | the element at the nearest rank of the sorted samples; the first sample for p <= 0 |
| PercentileAccuracy.RanksAgree | internal/latency/tracker.go:128-171 | the histogram's rank is the nearest rank or one below, and which of them is decided by the fraction of count * p |
| PercentileAccuracy.HistogramAgreesWithSamples | internal/latency/tracker.go:119-179 | for all positive samples the histogram percentile is at most 3/2 of the exact one; when the ranks coincide the exact one is below 4/3 of it if it is below 2^27, and below 16/3 of it if below 2^29 |
| PercentileAccuracy.PercentilesOrdered | internal/latency/tracker.go:137-151 | two unclamped percentiles of one histogram are ordered if and only if not (lower rank in the last cell and higher rank past the end) |
| PercentileOrder.RecordPercentilesOrdered | internal/latency/tracker.go:83-93 | the reported, clamped p95 and p99 of any merged value are ordered if and only if not (that condition and a maximum of 0 or above 2^26) |
| PercentileOrder.PercentilesCanSwap | bpf/tcp_connect.bpf.c:427-429 | a run of a hundred probes, three of them still at work, leaves a table whose report has a p95 above its p99 |
| LatencyTracker.Tracker.Read | internal/latency/tracker.go:37-113 | one record for each group, highest p95 first; a failed read keeps the old entries |
| LatencyTracker.MakeRecord | internal/latency/tracker.go:78-103 | the record of a cell: average, extremes, and both percentiles capped by the maximum |
| LatencyTracker.Report | internal/latency/tracker.go:76-109 | whatever order the pair map is walked in, the records are those of all its pairs, ordered |
| EndToEndLatency.PairGroup | internal/latency/tracker.go:46-72 | the group of a pair with fewer than 2^64 samples is the accumulation of exactly the samples of its recorded flows, for any table order and whatever else was sent |
| EndToEndLatency.PairSamplesAre | internal/latency/tracker.go:46-58 | the samples of a pair are srtt / 8 of the segments, with srtt of at least 8, of recorded flows whose addresses have its two names |
| EndToEndLatency.RecordDescribesSamples | internal/latency/tracker.go:76-109 | every record of a report whose pair has fewer than 2^32 samples counts them exactly, has true extremes and average, ordered percentiles below the maximum, and both percentiles within the error bound |
| EndToEndLatency.EveryPairIsReported | internal/latency/tracker.go:76-105 | every pair with samples in recorded flows, fewer than 2^64, has a record |
| ConcurrentProbe.CountIsHistogramPlusBetween | bpf/tcp_connect.bpf.c:425-442 | under any interleaving the count of every cell is its histogram's total plus the probes between the two additions |
| ConcurrentProbe.NothingLostOrDoubled | bpf/tcp_connect.bpf.c:425-442 | counts and sums over live and replaced cells, plus probes that have yet to add or were rejected, are exactly the invocations |
| ConcurrentProbe.ProbesProgress | bpf/tcp_connect.bpf.c:425-442 | a probe in flight can always take its next step and is done after at most four, whatever the others do |
| ConcurrentProbe.LiveNeverOvercounts | bpf/tcp_connect.bpf.c:425-442 | the live count of a flow never exceeds its invocations |
| ConcurrentProbe.QuiescentIsExact | bpf/tcp_connect.bpf.c:425-442 | with no probe in flight counts equal histograms and all cells of a flow add up to its accepted invocations |
| ConcurrentProbe.FallbackOnlyNearTheTop | internal/latency/tracker.go:136-151 | with at most k probes in flight the percentile fallback is reached only if count - target < k |
| Addresses.ParseIpRoundTrip | internal/throughput/tracker.go:115-116 | the text of a four-byte address reads back as that address |
| Addresses.DottedText | internal/throughput/tracker.go:45-46 | the text of four bytes is their decimals between dots, in order |
| Addresses.HexText | internal/aggregator/store.go:62-67 | the text of any other number of bytes is two hexadecimal digits for each, in order |
| Strings.DecimalDigits | internal/graph/ascii.go:51 | digit k from the right is the one of 10^k, without leading zeros |
| Throughput.TextKeyInjective | internal/throughput/tracker.go:44-49 | different connections never fall onto one text key |
| Throughput.Tracker.Snapshot | internal/throughput/tracker.go:42-65 | the displayed flows are raised row by row, also those before an error; the baseline is unchanged |
| Throughput.Tracker.Watch | internal/throughput/tracker.go:67-100 | a failed reading changes nothing; a successful one installs the deltas and the new baseline in fresh records that share nothing |
| Throughput.Tracker.ReadCurrent | internal/throughput/tracker.go:68-78 | the current counters are in fresh records, the last row of a key winning |
| Throughput.Compare | internal/throughput/tracker.go:83-96 | the rows that changed, as differences modulo 2^64, in records shared with neither reading |
| Throughput.Tracker.TopTalkers | internal/throughput/tracker.go:112-142 | one row for each resolved pair with the bytes of all its flows, largest total first |
| Throughput.Tracker.TopEndpoints | internal/throughput/tracker.go:151-179 | one row for each name, bytes sent as source and received as destination, largest total first |
| ThroughputRuns.Perform | internal/throughput/tracker.go:42-100 | the methods perform exactly the steps of the run model |
| ThroughputRuns.SnapshotIsOrderless | internal/throughput/tracker.go:50-62 | the order of rows within snapshots does not matter |
| ThroughputRuns.SnapshotHoldsMaxima | internal/throughput/tracker.go:50-62 | a flow is displayed if and only if it was or has a row, and each direction is the largest value seen |
| ThroughputRuns.SnapshotUnchangedIff | internal/throughput/tracker.go:42-65 | a snapshot, failed or not, leaves the state as it was if and only if each row it saw was displayed with at least its bytes |
| ThroughputRuns.FailedSnapshotKeepsRow | internal/throughput/tracker.go:50-64 | after a first reading that fails behind one row, Snapshot displays that row and Watch nothing |
| ThroughputRuns.ReadHoldsLastRow | internal/throughput/tracker.go:69-77 | a reading holds under each flow the sent and received bytes of its last row |
| ThroughputRuns.WatchShowsChanges | internal/throughput/tracker.go:83-96 | a successful Watch displays exactly the flows whose bytes differ from the previous reading, or from 0 |
| ThroughputRuns.WatchTelescopes | internal/throughput/tracker.go:67-100 | over any run the shown deltas of a flow add up to the last counters of all its stretches, plus 2^64 for each time the counter dropped |
| ThroughputRuns.StretchTelescopes | internal/throughput/tracker.go:83-98 | within a stretch that begins anywhere in a run the deltas add up to the last counter modulo 2^64, and exactly if and only if the counter never dropped |
| ThroughputRuns.StretchEndsAtRow | internal/throughput/tracker.go:67-98 | over a stretch that ends with a reading the shown bytes add up to those of the flow's last row in it, exactly if and only if the counter never dropped |
| ThroughputRuns.FlowIsOneConnection | internal/throughput/tracker.go:69-74 | behind each displayed flow stands exactly one connection, and the flow's names are those of its addresses |
| ThroughputRuns.TalkersAreResolved | internal/throughput/tracker.go:114-117 | the names of a row are the resolver's answers for the original addresses of a connection that was seen |
| ThroughputRuns.TalkerAddsUp | internal/throughput/tracker.go:112-135 | a talker shows the sent and received bytes of all flows from its source to its destination, and their total |
| ThroughputRuns.EndpointAddsUp | internal/throughput/tracker.go:151-172 | an endpoint shows the bytes sent by the flows from its name and received by the flows to it |
| ThroughputRuns.FlowIsRanked | internal/throughput/tracker.go:112-172 | each flow has a talker under its two names and an endpoint under each |
| ThroughputRuns.RankingsDescend | internal/throughput/tracker.go:136-179 | an earlier row has no smaller total |
| ThroughputRuns.TalkersConserve | internal/throughput/tracker.go:112-135 | the talker rows carry all the bytes of the flows |
| ThroughputRuns.EndpointsAreMarginals | internal/throughput/tracker.go:112-179 | an endpoint sends what talkers from it send and receives what talkers to it receive |
| TopList.RankPairs | internal/aggregator/store.go:79-124 | one row for each address pair in any snapshot with the sums over all nodes, largest total first |
| TopList.RowAddsUp | internal/aggregator/store.go:88-119 | a row names the two addresses of an entry and shows in each direction the bytes of all entries with these addresses on all nodes, modulo 2^64 |
| TopList.EntryIsRanked | internal/aggregator/store.go:88-101 | the addresses of each entry have a row |
| TopList.TopDescends | internal/aggregator/store.go:119-121 | an earlier row has no smaller total |
| TopList.TallyNodes | internal/aggregator/store.go:88-101 | the entries of every node, in some order of the nodes, each counted once under its pair |
| Aggregator.Store.Update | internal/aggregator/store.go:30-37 | the node's snapshot is replaced, the others stay |
| Aggregator.Store.GetTop | internal/aggregator/store.go:79-124 | the ranking of the stored snapshots |
| Aggregator.Store.GetLatency | internal/aggregator/store.go:170-250 | the report on the rows of all nodes, for every order of the nodes |
| Aggregator.GroupNodes | internal/aggregator/store.go:185-210 | the latency rows of every node, each node visited once, merged by pair |
| Aggregator.StoreHoldsLatest | internal/aggregator/store.go:30-37 | after any updates the store holds the latest snapshot of each node |
| Aggregator.StoreHoldsOnlyLatest | internal/aggregator/store.go:30-37 | and nothing else |
| Aggregator.ClusterViewIsSingleMachineView | internal/aggregator/store.go:170-250 | the cluster report has the records of a single tracker that reads all rows in any order, however they are spread over nodes |
| Aggregator.RowCopiesEntry | internal/aggregator/store.go:187-209 | an entry is merged with its own addresses and numbers, its histogram zero-padded or cut to 27 cells |
| Aggregator.ClusterRecordIsResolved | internal/aggregator/store.go:190-192 | the source of a cluster record is the text of the source address of a counted entry, its destination that of the destination address |
| Aggregator.CountedEntryIsReported | internal/aggregator/store.go:185-198 | every counted entry of every node has a record under the texts of its addresses |
| ClusterLatency.ClusterRecordDescribesSamples | internal/aggregator/store.go:170-250 | every cluster record whose pair has fewer than 2^32 samples counts the samples of all nodes exactly, has their true extremes and average, and both percentiles within the error bound |
| ClusterLatency.EveryClusterPairIsReported | internal/aggregator/store.go:212-242 | every pair with samples on any node, fewer than 2^64, has a cluster record |
| ClusterLatency.RowSurvives | internal/agent/agent.go:114-127 | the aggregator reads from an agent's entry the row that was in the kernel table |
| SnapshotProtocol.CollectIsExact | internal/agent/agent.go:91-101 | a snapshot carries exactly the kernel's bytes of each pair, for any table order |
| SnapshotProtocol.CollectCopies | internal/agent/agent.go:91-101 | each entry carries its flow's own addresses, ports and bytes under the node's name |
| SnapshotProtocol.KernelTotalIs | internal/agent/agent.go:91-101 | the kernel's total of two addresses is the sum of the bytes of the flows between them |
| SnapshotProtocol.GrowAdds | internal/agent/agent.go:91-101 | growth adds to one flow's counters and no others |
| SnapshotProtocol.RunNamed | internal/aggregator/server.go:24-31 | every snapshot under way or stored carries the name of the node it is filed under |
| SnapshotProtocol.RunInOrder | internal/agent/agent.go:60-82 | at all times acknowledged <= stored <= under way in sending order <= current, per node and pair |
| SnapshotProtocol.StepKeeps | internal/agent/agent.go:70-82 | every step other than a restart keeps that order and lowers no stored total |
| SnapshotProtocol.StoredBetweenAckedAndCurrent | internal/agent/agent.go:70-82 | the stored cluster totals lie between acknowledged and current totals |
| SnapshotProtocol.StoredNeverDecreases | internal/aggregator/server.go:24-31 | the stored total of a pair never goes down while a run goes on |
| SnapshotProtocol.StoredPairHasRow | internal/aggregator/store.go:103-118 | a pair for which any bytes are stored has a row |
| SnapshotProtocol.TopIsSandwiched | internal/aggregator/store.go:79-124 | a pair with acknowledged bytes has a row of GetTop, and its row shows between the acknowledged and the current bytes |
| SnapshotProtocol.RowsNeverDecrease | internal/aggregator/store.go:79-124 | a row with bytes has a later row of its pair, which shows no fewer |
| SnapshotProtocol.FullRoundCatchesUp | internal/agent/agent.go:74-80 | a tick, delivery and reply without loss bring store and acknowledgement to the kernel's current bytes |
| SnapshotProtocol.RestartLosesBytes | internal/agent/agent.go:60-65 | in every state the handshake of a restarted agent takes its node's bytes off each total, which stays the same if and only if there were none; once acknowledged, the node is in order again |
| SnapshotProtocol.RestartedAgentLosesBytes | internal/agent/agent.go:60-82 | a run from the start in which a restart takes a stored total from 5 bytes to 0 |
| ServiceResolver.Resolver.constructor | internal/resolver/svcresolver.go:23-75 | an enabled resolver starts from the three lists as events, a failed list being skipped |
| ServiceResolver.Resolver.HandleEvent | internal/resolver/svcresolver.go:125-239 | one turn of a watcher's loop is one step of the event model |
| ServiceResolver.ListEventsAre | internal/resolver/svcresolver.go:34-69 | the lists count as additions of all pods, then all services, then all slices |
| ServiceResolver.ServiceIpsAre | internal/resolver/svcresolver.go:90-107 | a service is reached at its cluster addresses other than "None" and at its external and load-balancer addresses, never at an empty one |
| ServiceResolver.SliceAddressesAre | internal/resolver/svcresolver.go:117-121 | the addresses of a slice are those of all its endpoints |
| ResolverRuns.EventEffect | internal/resolver/svcresolver.go:77-236 | what each kind of event does to the two entries of any address, on every cache |
| ServiceResolver.Resolver.AddService | internal/resolver/svcresolver.go:86-109 | all addresses of a service that are neither empty nor headless now name it |
| ServiceResolver.Resolver.AddPod | internal/resolver/svcresolver.go:77-84 | a pod with an address owns that address; one without changes nothing |
| ServiceResolver.Resolver.DeleteService | internal/resolver/svcresolver.go:186-194 | every address that stands for the service is forgotten |
| ServiceResolver.Resolver.AddSlice | internal/resolver/svcresolver.go:111-123 | all addresses of a labelled slice now name its service |
| ServiceResolver.Resolver.DeleteSlice | internal/resolver/svcresolver.go:225-235 | the addresses of a slice that stand for its service are forgotten |
| ServiceResolver.Resolver.Resolve | internal/resolver/svcresolver.go:241-257 | service name, else pod name, else the address text |
| ResolverRuns.ServiceHistory | internal/resolver/svcresolver.go:77-236 | an address stands for a service if and only if the last event asserting it names that service and nothing withdrew it since |
| ResolverRuns.PodHistory | internal/resolver/svcresolver.go:143-156 | an address belongs to a pod if and only if the last pod event on it was an addition or change naming it |
| ResolverRuns.ResolveAnswers | internal/resolver/svcresolver.go:241-257 | after any history the answer is the standing service, else the pod, else the address |
| ResolverRuns.CommuteIffIndependent | internal/resolver/svcresolver.go:179-236 | a service event and a slice event commute on every cache if and only if a condition on the two events holds |
| ResolverRuns.InterleavingsAgree | internal/resolver/svcresolver.go:125-239 | when all those pairs are independent, any two interleavings of the three streams end in the same cache |
| ResolverRuns.SeparateStreamsAreIndependent | internal/resolver/svcresolver.go:125-239 | disjoint addresses, and no deleted service named by a slice, make all pairs independent |
| DnsMatcher.Probes.KprobeUdpSendmsg | bpf/tcp_connect.bpf.c:170-189 | a DNS query is filed, replaces an older one of its key, or is dropped by a full map |
| DnsMatcher.Probes.KprobeUdpRcv | bpf/tcp_connect.bpf.c:239-284 | a response removes its query and records its latency for the address pair |
| DnsMatcher.ResponseCounts | bpf/tcp_connect.bpf.c:251-284 | a matching response counts for the pair of the query's own client and server, or is dropped by a map of 65536 pairs; no other pair changes |
| DnsMatcher.QueriesConserved | bpf/tcp_connect.bpf.c:178-252 | in every state each query was matched, is pending, was overwritten, or was rejected by the full map |
| DnsMatcher.PendingIsLatestSend | bpf/tcp_connect.bpf.c:187-189 | a pending query carries the time of the latest query of its key |
| DnsMatcher.MatchMeasuresLatestQuery | bpf/tcp_connect.bpf.c:251-255 | a match records the time since the latest query of exactly that key, never negative, and removes it |
| DnsMatcher.StatsHoldRecords | bpf/tcp_connect.bpf.c:254-284 | what is stored for a pair is what recording all its latencies in order gives; a pair with matches is missing only if the map is full |
| DnsMatcher.StatsCountMatches | bpf/tcp_connect.bpf.c:260-284 | count and sum of a pair are those of its matches modulo 2^64 |
| DnsMatcher.RecordedCells | bpf/tcp_connect.bpf.c:257-269 | each cell counts the latencies whose low 32 bits fall into its bucket |
| DnsMatcher.MatchesConserved | bpf/tcp_connect.bpf.c:239-284 | in every state the matches of the stored pairs add up to all matches less those dropped because the statistics map was full |
| DnsMatcher.MaximumKeptIff | bpf/tcp_connect.bpf.c:265-268 | one recording keeps the maximum if and only if the latency is below 2^32 microseconds |
| DnsMatcher.StoredMaximumIff | bpf/tcp_connect.bpf.c:254-284 | over any run the stored maximum of a pair is the longest of its latencies if and only if all are below 2^32 microseconds |
| DnsMatcher.MaximumCanDrop | bpf/tcp_connect.bpf.c:267-268 | a run of two queries and their responses in which the stored maximum goes from 100 us down to 1 us |
| DnsMatcher.StoredMinimumIff | bpf/tcp_connect.bpf.c:254-284 | over any run with latencies below 2^32 microseconds the stored minimum of a pair is the shortest of them if and only if none is 0 or the latest is |
| DnsMatcher.MinimumCanRise | bpf/tcp_connect.bpf.c:265-266 | a run of two queries and their responses in which the stored minimum goes from 0 us up to 100 us |
| DnsMatcher.RecordIsPush | bpf/tcp_connect.bpf.c:262-284 | below 2^32 microseconds one recording is a push, but for the minimum when a latency is 0 |
| DnsMatcher.StatsAccumulate | bpf/tcp_connect.bpf.c:254-284 | over any run with latencies below 2^32 microseconds all that is stored for a pair is the accumulation of its latencies, but for the minimum when one was 0 |
| ServiceGraph.Graph.AddEdge | internal/graph/graph.go:17-30 | the count of the pair goes up by one, in place or as a new edge |
| ServiceGraph.Graph.Edges | internal/graph/graph.go:32-40 | all edges, each once, with their counts |
| ServiceGraph.CountsAreMultiplicities | internal/graph/graph.go:17-30 | the counts are how often each pair was called |
| AsciiMap.Ascii | internal/graph/ascii.go:9-71 | the text is the rendering of the graph's sorted rows, whatever order its maps are walked in |
| AsciiMap.GroupEdges | internal/graph/ascii.go:20-26 | each source holds exactly its destinations, each once with its count |
| AsciiMap.DrawRow | internal/graph/ascii.go:46-67 | the text of one row, on one line for a single destination and as a tree for several |
| AsciiMap.RowIsDrawn | internal/graph/ascii.go:46-67 | a single destination stands behind an arrow, several hang on branches and the last on a corner, with a count where it is above one |
| AsciiMap.DrawingIsBlocks | internal/graph/ascii.go:40-70 | blocks follow each other with an empty line in between; no edges give "(no edges)" |
| AsciiMap.AtMostIff | internal/graph/ascii.go:28-38 | names are ordered by their first difference, a beginning before the whole |
| AsciiMap.RepresentationUnique | internal/graph/ascii.go:28-38 | a graph has only one arrangement into sorted rows |
| AsciiMap.ReadRender | internal/graph/ascii.go:40-70 | a reader recovers every source and the text behind each arrow, provided that no source forms an earlier arrow or begins like a branch; blanks are allowed, and the first source may be empty |
| AsciiMap.DecodeRender | internal/graph/ascii.go:40-70 | a reader recovers every row, destination and count from the text |
| AsciiMap.DrawingIsLossless | internal/graph/ascii.go:9-71 | for names without blanks the text gives back the call count of every pair and nothing else |
| AmbiguousDrawings.LabelsCollideIff | internal/graph/ascii.go:46-66 | two edges of one source are written alike if and only if they are equal or one is a single call of the other's name with its count written behind it |
| AmbiguousDrawings.ShiftsIff | internal/graph/ascii.go:48-52 | single edges of sources of different length are written alike if and only if the longer source holds the arrow behind the shorter one and the rest of it stands before the other destination |
| AmbiguousDrawings.DrawnAlikeIff | internal/graph/ascii.go:40-70 | rows of one-line names, empty ones included, are drawn as one text if and only if they look the same row by row |
| AmbiguousDrawings.SameTextIff | internal/graph/ascii.go:9-71 | two series of calls with names without line ends have one text if and only if their rows look the same, and one graph if and only if their rows are the same |
| AmbiguousDrawings.UnmistakableNamesTellApart | internal/graph/ascii.go:9-71 | among sources without arrows and destinations that do not end like a count, blanks or not, different graphs have different texts |
| AmbiguousDrawings.BlanksAreAmbiguous | internal/graph/ascii.go:49-52 | one call of a name with blanks and two calls of another are drawn alike |
| AmbiguousDrawings.ArrowsAreAmbiguous | internal/graph/ascii.go:48 | calls of different pairs, one with an arrow in its source and one with it in its destination, are drawn alike |

## Left out

- AmbiguousDrawings.SameTextIff: names with line ends; the drawing does not mark them in any way.
- EndToEndLatency.RecordDescribesSamples: pairs with 2^32 or more samples, whose 32-bit histogram cells can
  wrap.
- Double arithmetic: counts times probabilities, averages and percentiles are computed over the reals.
- Average of a group whose 64-bit count wrapped to zero: the source divides by zero there; the model gives 0.
- eBPF loading, attachment, ring buffers, kernel structure reads and DNS names: the handlers get the values
  already read.
- Kernel reuse of preallocated map elements: a replaced cell stays apart for the probes that hold it.
- Minimum and maximum under concurrent probes: plain compare-then-write, so only the sequential probe has
  exact extremes.
- ConcurrentProbe.NothingLostOrDoubled: counters are unbounded there; a cell never exceeds the invocations of
  its flow, so nothing wraps below 2^32 of them.
- Reads that overlap map changes: a report sees each row as one consistent value, and names do not change
  while a report is made.
- ServiceResolver.Resolver.Resolve: the two lookups are one atomic read under the lock; pointers, watch
  restarts and the stop channel are not modelled, since a restarted watch only delivers further events.
- ResolverRuns.InterleavingsAgree: independence of all pairs is sufficient for whole streams; only for two
  single events is it shown to be necessary too.
- SnapshotProtocol.StoredBetweenAckedAndCurrent: assumes unique node names, no restart, delivery in sending
  order and complete table reads; growth that would overflow a counter or the table is not a step.
- Latency rows within the protocol: the state machine carries throughput entries only.
- Snapshots and DNS statistics are values that methods replace; aliasing of message objects is not modelled.
- `GetFlows`, `GetRetrans`, `GetDNS`, the DNS and retransmission trackers and `PodResolver`: near copies of
  what is modelled.
- Formatting of units and durations, Mbps, exports, the Mermaid drawing, commands, Kubernetes clients and
  timestamps: display and plumbing.
