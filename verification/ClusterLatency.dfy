/** From packets on many nodes to the cluster report: what each of its records says about the raw
    samples of all nodes together. */
module ClusterLatency {
  import opened Machine
  import opened Sums
  import opened Sorting
  import opened RttValues
  import opened Percentile
  import opened PairKeys
  import opened Addresses
  import opened LatencyGroups
  import opened RttProbe
  import opened LatencyTracker
  import opened LatencyRecords
  import opened EndToEndLatency
  import opened Snapshots
  import opened Aggregator

  /** What happened on a node before its latest snapshot: the packets its probe saw, and the order in
      which its agent read the table. */
  datatype Trace = Trace(events: seq<Segment>, order: seq<FlowId>)

  type Traces = map<string, Trace>

  /** The agent's copy of a row. */
  function EntryFor(row: RttRow): RttEntry {
    RttEntry(row.id.srcIp, row.id.dstIp, row.id.srcPort, row.id.dstPort,
             row.val.sumUs, row.val.count, row.val.minUs, row.val.maxUs, row.val.hist)
  }

  function EntriesFor(rows: seq<RttRow>): (entries: seq<RttEntry>)
    ensures |entries| == |rows| && forall i :: 0 <= i < |entries| ==> entries[i] == EntryFor(rows[i])
  {
    seq(|rows|, i requires 0 <= i < |rows| => EntryFor(rows[i]))
  }

  ghost predicate IsSnapshotOf(snap: Snapshot, t: Trace) {
    IsListing(t.order, Run(t.events).Keys) && snap.rtt == EntriesFor(RowsOf(Run(t.events), t.order))
  }

  /** The store holds a snapshot of each node. */
  ghost predicate Stored(nodes: Nodes, traces: Traces) {
    nodes.Keys == traces.Keys && forall name :: name in nodes ==> IsSnapshotOf(nodes[name], traces[name])
  }

  function NodeSamples(traces: Traces, name: string, pk: string): seq<u32> {
    if name in traces then PairSamples(traces[name].events, IpText, pk) else []
  }

  /** The samples of a pair on all nodes, flow ids that several nodes use included. */
  function AllSamples(traces: Traces, order: seq<string>, pk: string): seq<u32> {
    if order == [] then [] else
      AllSamples(traces, order[..|order| - 1], pk) + NodeSamples(traces, order[|order| - 1], pk)
  }

  /** What travels over the wire comes back as the row it was. */
  lemma RowSurvives(row: RttRow)
    ensures RowOf(EntryFor(row)) == row
  {
    assert Padded(row.val.hist) == row.val.hist;
  }

  lemma NodeRowsSurvive(nodes: Nodes, traces: Traces, name: string)
    requires Stored(nodes, traces) && name in nodes
    ensures NodeRows(nodes, name) == RowsOf(Run(traces[name].events), traces[name].order)
  {
    hide RowOf, EntryFor, Run;
    assert IsSnapshotOf(nodes[name], traces[name]);
    forall row ensures RowOf(EntryFor(row)) == row {
      RowSurvives(row);
    }
  }

  lemma {:induction false} ValuesConcat(r: Resolver, a: seq<RttRow>, b: seq<RttRow>, pk: string)
    ensures ValuesOf(r, a + b, pk) == ValuesOf(r, a, pk) + ValuesOf(r, b, pk)
    decreases |b|
  {
    hide KeyOf;
    if b == [] {
      assert a + b == a;
    } else {
      var n := |b| - 1;
      assert (a + b)[..|a| + n] == a + b[..n];
      ValuesConcat(r, a, b[..n], pk);
    }
  }

  lemma {:induction false} MergeAllConcat(a: seq<RttVal>, b: seq<RttVal>)
    ensures MergeAll(a + b) == Merge(MergeAll(a), MergeAll(b))
    decreases |b|
  {
    hide Merge;
    if b == [] {
      assert a + b == a;
      MergeZero(MergeAll(a));
    } else {
      var n := |b| - 1;
      assert (a + b)[..|a| + n] == a + b[..n];
      MergeAllConcat(a, b[..n]);
      MergeAssociates(MergeAll(a), MergeAll(b[..n]), b[n]);
    }
  }

  /** The values one node contributes to a pair. */
  lemma NodeValue(nodes: Nodes, traces: Traces, name: string, pk: string)
    requires Stored(nodes, traces) && |NodeSamples(traces, name, pk)| < TWO64
    ensures
      var vals, xs := ValuesOf(IpText, NodeRows(nodes, name), pk), NodeSamples(traces, name, pk);
      MergeAll(vals) == AccOf(xs) && (vals == [] <==> xs == [])
  {
    hide ValuesOf, PairSamples, Run, IpText, Merge, NodeRows, RowsOf;
    NothingMerged(nodes, name, pk);
    if name in nodes {
      var t := traces[name];
      NodeRowsSurvive(nodes, traces, name);
      assert IsSnapshotOf(nodes[name], t);
      PairGroup(t.events, IpText, t.order, pk);
      GroupIsMerge(IpText, NodeRows(nodes, name), pk);
    }
  }

  lemma NothingMerged(nodes: Nodes, name: string, pk: string)
    ensures MergeAll([]) == AccOf([])
    ensures name !in nodes ==> ValuesOf(IpText, NodeRows(nodes, name), pk) == []
  {
  }

  lemma {:induction false} ClusterValue(nodes: Nodes, traces: Traces, order: seq<string>, pk: string)
    requires Stored(nodes, traces) && |AllSamples(traces, order, pk)| < TWO64
    ensures
      var vals, xs := ValuesOf(IpText, ClusterRows(nodes, order), pk), AllSamples(traces, order, pk);
      MergeAll(vals) == AccOf(xs) && (vals == [] <==> xs == [])
    decreases |order|
  {
    hide ValuesOf, NodeSamples, NodeRows, Merge, Stored;
    if order == [] {
      NothingMerged(map[], "", pk);
      NoRows(pk);
    } else {
      var n := |order| - 1;
      var front, last := ClusterRows(nodes, order[..n]), NodeRows(nodes, order[n]);
      ClusterValue(nodes, traces, order[..n], pk);
      NodeValue(nodes, traces, order[n], pk);
      ValuesConcat(IpText, front, last, pk);
      MergeAllConcat(ValuesOf(IpText, front, pk), ValuesOf(IpText, last, pk));
      AccConcat(AllSamples(traces, order[..n], pk), NodeSamples(traces, order[n], pk));
    }
  }

  lemma NoRows(pk: string)
    ensures ValuesOf(IpText, [], pk) == []
  {
  }

  ghost predicate InRange(xs: seq<u32>) {
    Positive(xs) && forall i :: 0 <= i < |xs| ==> xs[i] < 0x2000_0000
  }

  lemma {:induction false} AllInRange(traces: Traces, order: seq<string>, pk: string)
    ensures InRange(AllSamples(traces, order, pk))
    decreases |order|
  {
    if order != [] {
      var n := |order| - 1;
      AllInRange(traces, order[..n], pk);
      if order[n] in traces {
        var events := traces[order[n]].events;
        SamplesInRange(events, RecordedFor(Run(events).Keys, IpText, pk));
      }
    }
  }

  /** Main result. Take any packets on any nodes, any orders in which tables, nodes and rows are read,
      and any record of the cluster report that stands for fewer than 2^32 samples. It counts the
      samples of its pair on all nodes exactly, its extremes and average are true ones, and both
      percentiles meet the error bound against all those samples sorted. */
  lemma ClusterRecordDescribesSamples(
    nodes: Nodes, traces: Traces, order: seq<string>, rows: seq<RttRow>, records: seq<Record>,
    rec: Record, ys: seq<u32>)
    requires Stored(nodes, traces) && IsListing(order, nodes.Keys)
    requires multiset(rows) == multiset(ClusterRows(nodes, order))
    requires ReportsOn(records, GroupRows(IpText, rows)) && rec in records
    requires |AllSamples(traces, order, PairKey(rec.source, rec.destination))| < TWO32
    requires SortedCopy(ys, AllSamples(traces, order, PairKey(rec.source, rec.destination)), AtMostU32())
    ensures Describes(rec, AllSamples(traces, order, PairKey(rec.source, rec.destination)), ys)
  {
    hide ValuesOf, AllSamples, RecordOf, ReportsOn, Describes, AccOf, MergeAll, Stored, GroupRows;
    GroupsPermute(IpText, rows, ClusterRows(nodes, order));
    var g := GroupRows(IpText, ClusterRows(nodes, order));
    var pk := KeyOfRecord(g, records, rec);
    GroupIsMerge(IpText, ClusterRows(nodes, order), pk);
    NamesOfRecord(g, pk);
    ClusterValue(nodes, traces, order, pk);
    AllInRange(traces, order, pk);
    AccumulationDescribes(pk, AllSamples(traces, order, pk), ys);
  }

  lemma NamesOfRecord(g: Groups, pk: string)
    requires pk in g && NUL in pk
    ensures PairKey(RecordOf(pk, g[pk]).source, RecordOf(pk, g[pk]).destination) == pk
  {
    SplitRoundTrip(pk);
  }

  /** And the other way: every pair with samples on any node is in the cluster report. */
  lemma EveryClusterPairIsReported(
    nodes: Nodes, traces: Traces, order: seq<string>, rows: seq<RttRow>, records: seq<Record>,
    src: string, dst: string)
    requires Stored(nodes, traces)
    requires multiset(rows) == multiset(ClusterRows(nodes, order))
    requires ReportsOn(records, GroupRows(IpText, rows))
    requires NUL !in src && 0 < |AllSamples(traces, order, PairKey(src, dst))| < TWO64
    ensures exists rec :: rec in records && rec.source == src && rec.destination == dst
  {
    hide ValuesOf, AllSamples, ReportsOn, AccOf, MergeAll, Stored, GroupRows;
    GroupsPermute(IpText, rows, ClusterRows(nodes, order));
    GroupIsMerge(IpText, ClusterRows(nodes, order), PairKey(src, dst));
    ClusterValue(nodes, traces, order, PairKey(src, dst));
    GroupIsReported(GroupRows(IpText, ClusterRows(nodes, order)), records, src, dst);
  }
}
