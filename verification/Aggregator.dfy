/** The aggregator's store: the latest snapshot of each node, and the latency report over all nodes. */
module Aggregator {
  import opened Sums
  import opened Folds
  import opened Sorting
  import opened CellTables
  import opened PairKeys
  import opened Addresses
  import opened LatencyGroups
  import opened LatencyTracker
  import opened LatencyRecords
  import opened Snapshots
  import opened TopList

  /** The latency row that an entry of a snapshot stands for. */
  function RowOf(e: RttEntry): RttRow {
    RttRow(FlowId(e.srcIp, e.dstIp, e.srcPort % 0x1_0000, e.dstPort % 0x1_0000),
           ValueOf(e))
  }

  function SnapshotRows(snap: Snapshot): (rows: seq<RttRow>)
    ensures |rows| == |snap.rtt| && forall i :: 0 <= i < |rows| ==> rows[i] == RowOf(snap.rtt[i])
  {
    seq(|snap.rtt|, i requires 0 <= i < |snap.rtt| => RowOf(snap.rtt[i]))
  }

  function NodeRows(nodes: Nodes, name: string): seq<RttRow> {
    if name in nodes then SnapshotRows(nodes[name]) else []
  }

  /** The rows of all snapshots, node after node in the given order. */
  function ClusterRows(nodes: Nodes, order: seq<string>): seq<RttRow> {
    if order == [] then [] else
      ClusterRows(nodes, order[..|order| - 1]) + NodeRows(nodes, order[|order| - 1])
  }

  function BagStep(nodes: Nodes): (multiset<RttRow>, string) -> multiset<RttRow> {
    (bag, name) => bag + multiset(NodeRows(nodes, name))
  }

  lemma {:induction false} RowsAsBag(nodes: Nodes, order: seq<string>)
    ensures multiset(ClusterRows(nodes, order)) == Fold(BagStep(nodes), multiset{}, order)
    decreases |order|
  {
    if order != [] {
      RowsAsBag(nodes, order[..|order| - 1]);
    }
  }

  lemma BagStepsCommute(nodes: Nodes)
    ensures StepsCommute(BagStep(nodes))
  {
    forall b, x: string, y: string
      ensures BagStep(nodes)(BagStep(nodes)(b, x), y) == BagStep(nodes)(BagStep(nodes)(b, y), x)
    {
      var p, q := multiset(NodeRows(nodes, x)), multiset(NodeRows(nodes, y));
      assert b + p + q == b + q + p;
    }
  }

  /** Go iterates over the nodes in no particular order; the rows are the same. */
  lemma ClusterRowsPermute(nodes: Nodes, order: seq<string>, order': seq<string>)
    requires IsListing(order, nodes.Keys) && IsListing(order', nodes.Keys)
    ensures multiset(ClusterRows(nodes, order)) == multiset(ClusterRows(nodes, order'))
  {
    RowsAsBag(nodes, order);
    RowsAsBag(nodes, order');
    ListingMultiset(order, nodes.Keys);
    ListingMultiset(order', nodes.Keys);
    BagStepsCommute(nodes);
    FoldPermutes(BagStep(nodes), multiset{}, order, order');
  }

  /** The merged groups of all nodes. */
  function ClusterGroups(nodes: Nodes, order: seq<string>): Groups {
    GroupRows(IpText, ClusterRows(nodes, order))
  }

  lemma ClusterGroupsPermute(nodes: Nodes, order: seq<string>, order': seq<string>)
    requires IsListing(order, nodes.Keys) && IsListing(order', nodes.Keys)
    ensures ClusterGroups(nodes, order) == ClusterGroups(nodes, order')
  {
    ClusterRowsPermute(nodes, order, order');
    GroupsPermute(IpText, ClusterRows(nodes, order), ClusterRows(nodes, order'));
  }

  lemma ClusterGroupsSnoc(nodes: Nodes, order: seq<string>, name: string)
    ensures ClusterGroups(nodes, order + [name]) ==
            Fold(Step(IpText), ClusterGroups(nodes, order), NodeRows(nodes, name))
  {
    assert (order + [name])[..|order|] == order;
    FoldConcat(Step(IpText), map[], ClusterRows(nodes, order), NodeRows(nodes, name));
  }

  class Store {
    var nodes: Nodes

    constructor ()
      ensures nodes == map[]
    {
      nodes := map[];
    }

    method Update(nodeName: string, snap: Snapshot)
      modifies this
      ensures nodes == old(nodes)[nodeName := snap]
    {
      nodes := nodes[nodeName := snap];
    }

    /** One row for each pair of addresses in any snapshot, with the sum over all nodes. */
    method GetTop() returns (talkers: seq<TopTalker>)
      ensures TopOf(talkers, nodes)
    {
      talkers := RankPairs(nodes);
    }

    /** The report is the one a single machine would make of all the nodes' rows put together,
        in whatever order the nodes are listed. */
    method GetLatency() returns (records: seq<Record>)
      ensures forall order :: IsListing(order, nodes.Keys) ==>
                ReportsOn(records, ClusterGroups(nodes, order))
    {
      ghost var visited;
      var pairs;
      pairs, visited := GroupNodes(nodes);
      GroupsAreJoined(IpText, ClusterRows(nodes, visited));
      records := Report(pairs);
      forall order | IsListing(order, nodes.Keys)
        ensures ClusterGroups(nodes, order) == ClusterGroups(nodes, visited)
      {
        ClusterGroupsPermute(nodes, order, visited);
      }
    }
  }

  lemma NodeVisited(nodes: Nodes, visited: seq<string>, todo: set<string>, name: string)
    requires IsListing(visited, nodes.Keys - todo) && todo <= nodes.Keys && name in todo
    ensures IsListing(visited + [name], nodes.Keys - (todo - {name}))
    ensures ClusterGroups(nodes, visited + [name]) ==
            Fold(Step(IpText), ClusterGroups(nodes, visited), SnapshotRows(nodes[name]))
  {
    ClusterGroupsSnoc(nodes, visited, name);
    ListingSnoc(visited, nodes.Keys - todo, name);
    assert nodes.Keys - (todo - {name}) == nodes.Keys - todo + {name};
  }

  /** The outer loop of GetLatency: the nodes, in the order in which Go's map yields them. */
  method GroupNodes(nodes: Nodes) returns (pairs: CellTable<string>, ghost visited: seq<string>)
    ensures fresh(pairs) && pairs.Valid()
    ensures IsListing(visited, nodes.Keys)
    ensures pairs.View() == ClusterGroups(nodes, visited)
  {
    pairs := new CellTable<string>();
    visited := [];
    var todo := nodes.Keys;
    while todo != {}
      invariant todo <= nodes.Keys
      invariant IsListing(visited, nodes.Keys - todo)
      invariant fresh(pairs) && pairs.Valid() && fresh(pairs.Footprint())
      invariant pairs.View() == ClusterGroups(nodes, visited)
    {
      var name :| name in todo;
      AddNode(pairs, nodes[name]);
      NodeVisited(nodes, visited, todo, name);
      visited := visited + [name];
      todo := todo - {name};
    }
    assert nodes.Keys - todo == nodes.Keys;
  }

  /** The inner loop of GetLatency: the rows of one node. */
  method AddNode(pairs: CellTable<string>, snap: Snapshot)
    requires pairs.Valid()
    modifies pairs, pairs.Footprint()
    ensures pairs.Valid() && fresh(pairs.Footprint() - old(pairs.Footprint()))
    ensures pairs.View() == Fold(Step(IpText), old(pairs.View()), SnapshotRows(snap))
  {
    ghost var rows := SnapshotRows(snap);
    for i := 0 to |snap.rtt|
      invariant pairs.Valid() && fresh(pairs.Footprint() - old(pairs.Footprint()))
      invariant pairs.View() == Fold(Step(IpText), old(pairs.View()), rows[..i])
    {
      var e := snap.rtt[i];
      assert rows[..i + 1][..i] == rows[..i];
      if e.count != 0 {
        var src, dst := IpText(e.srcIp), IpText(e.dstIp);
        pairs.AbsorbEntry(PairKey(src, dst), e);
      }
    }
    assert rows[..|snap.rtt|] == rows;
  }

  // The store over a run of updates.

  function AfterUpdates(updates: seq<(string, Snapshot)>): Nodes {
    if updates == [] then map[] else
      var last := updates[|updates| - 1];
      AfterUpdates(updates[..|updates| - 1])[last.0 := last.1]
  }

  /** Update `i` is the last one from its node. */
  ghost predicate IsLatest(updates: seq<(string, Snapshot)>, i: nat) {
    i < |updates| && forall j :: i < j < |updates| ==> updates[j].0 != updates[i].0
  }

  lemma {:induction false} StoreHoldsLatest(updates: seq<(string, Snapshot)>, i: nat)
    requires IsLatest(updates, i)
    ensures updates[i].0 in AfterUpdates(updates)
    ensures AfterUpdates(updates)[updates[i].0] == updates[i].1
    decreases |updates|
  {
    var n := |updates| - 1;
    if i < n {
      assert updates[n].0 != updates[i].0;
      assert IsLatest(updates[..n], i);
      StoreHoldsLatest(updates[..n], i);
    }
  }

  lemma {:induction false} StoreHoldsOnlyLatest(updates: seq<(string, Snapshot)>, name: string) returns (i: nat)
    requires name in AfterUpdates(updates)
    ensures IsLatest(updates, i) && updates[i] == (name, AfterUpdates(updates)[name])
    decreases |updates|
  {
    i := |updates| - 1;
    if updates[i].0 != name {
      i := StoreHoldsOnlyLatest(updates[..i], name);
    }
  }

  /** Main result: take any run of updates, and any way to spread the same rows over nodes. The
      cluster report and the report of a single tracker that reads all the rows in any order have
      the same records, and both are ordered by p95. */
  lemma ClusterViewIsSingleMachineView(
    updates: seq<(string, Snapshot)>, order: seq<string>, records: seq<Record>,
    rows: seq<RttRow>, entries: seq<Record>)
    requires IsListing(order, AfterUpdates(updates).Keys)
    requires ReportsOn(records, ClusterGroups(AfterUpdates(updates), order))
    requires multiset(rows) == multiset(ClusterRows(AfterUpdates(updates), order))
    requires ReportsOn(entries, GroupRows(IpText, rows))
    ensures multiset(records) == multiset(entries)
    ensures Ordered(records, HighestFirst()) && Ordered(entries, HighestFirst())
  {
    GroupsPermute(IpText, rows, ClusterRows(AfterUpdates(updates), order));
  }

  // The report, in terms of the entries themselves.

  /** A row carries the addresses and numbers of its entry; missing cells are 0, surplus cells left out. */
  lemma RowCopiesEntry(e: RttEntry, b: nat)
    requires b < 27
    ensures RowOf(e).id.srcIp == e.srcIp && RowOf(e).id.dstIp == e.dstIp
    ensures RowOf(e).val.sumUs == e.sumUs && RowOf(e).val.count == e.count
    ensures RowOf(e).val.minUs == e.minUs && RowOf(e).val.maxUs == e.maxUs
    ensures RowOf(e).val.hist[b] == if b < |e.hist| then e.hist[b] else 0
  {
  }

  lemma {:induction false} RowHasEntry(nodes: Nodes, order: seq<string>, i: nat) returns (name: string, j: nat)
    requires i < |ClusterRows(nodes, order)|
    ensures name in order && name in nodes && j < |nodes[name].rtt|
    ensures ClusterRows(nodes, order)[i] == RowOf(nodes[name].rtt[j])
    decreases |order|
  {
    hide RowOf;
    var n := |order| - 1;
    var before := |ClusterRows(nodes, order[..n])|;
    if i < before {
      name, j := RowHasEntry(nodes, order[..n], i);
      assert name in order;
    } else {
      name, j := order[n], i - before;
    }
  }

  /** The source of a cluster record is the text of the source address of a counted entry of some node,
      its destination that of the destination address. */
  lemma ClusterRecordIsResolved(nodes: Nodes, order: seq<string>, records: seq<Record>, rec: Record)
    returns (name: string, j: nat)
    requires ReportsOn(records, ClusterGroups(nodes, order)) && rec in records
    ensures name in nodes && j < |nodes[name].rtt| && nodes[name].rtt[j].count != 0
    ensures rec.source == IpText(nodes[name].rtt[j].srcIp) && rec.destination == IpText(nodes[name].rtt[j].dstIp)
  {
    hide ReportsOn, IpText;
    var i := RecordIsResolved(IpText, ClusterRows(nodes, order), records, rec);
    name, j := RowHasEntry(nodes, order, i);
    RowCopiesEntry(nodes[name].rtt[j], 0);
    IpTextPlain(nodes[name].rtt[j].srcIp, NUL);
  }

  lemma {:induction false} EntryHasRow(nodes: Nodes, order: seq<string>, name: string, j: nat) returns (i: nat)
    requires name in order && name in nodes && j < |nodes[name].rtt|
    ensures i < |ClusterRows(nodes, order)| && ClusterRows(nodes, order)[i] == RowOf(nodes[name].rtt[j])
    decreases |order|
  {
    hide RowOf;
    var n := |order| - 1;
    if order[n] == name {
      i := |ClusterRows(nodes, order[..n])| + j;
    } else {
      i := EntryHasRow(nodes, order[..n], name, j);
    }
  }

  /** And the other way: each counted entry of each node has a record under the texts of its addresses. */
  lemma CountedEntryIsReported(nodes: Nodes, order: seq<string>, records: seq<Record>, name: string, j: nat)
    requires ReportsOn(records, ClusterGroups(nodes, order)) && IsListing(order, nodes.Keys)
    requires name in nodes && j < |nodes[name].rtt| && nodes[name].rtt[j].count != 0
    ensures exists rec :: rec in records
              && rec.source == IpText(nodes[name].rtt[j].srcIp) && rec.destination == IpText(nodes[name].rtt[j].dstIp)
  {
    hide ReportsOn, IpText;
    var i := EntryHasRow(nodes, order, name, j);
    RowCopiesEntry(nodes[name].rtt[j], 0);
    IpTextPlain(nodes[name].rtt[j].srcIp, NUL);
    CountedRowIsReported(IpText, ClusterRows(nodes, order), records, i);
  }
}
