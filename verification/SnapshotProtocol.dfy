/** Agents, network and aggregator as one state machine: cumulative counters grow in the kernels,
    agents send snapshots of them, requests and replies can get lost, the store keeps the latest. */
module SnapshotProtocol {
  import opened Machine
  import opened Sums
  import opened Folds
  import opened PairKeys
  import opened Addresses
  import opened ByteTallies
  import opened Snapshots
  import opened TopList

  type Kernel = map<FlowId, Bytes>

  /** `network` holds the requests under way, oldest first; `acked` the last acknowledged snapshots. */
  datatype System = System(
    kernels: map<string, Kernel>,
    network: map<string, seq<Snapshot>>,
    nodes: Nodes,
    acked: Nodes)

  datatype Action =
    | Start(node: string)
    | Grow(node: string, id: FlowId, tx: u64, rx: u64)
    | Tick(node: string, order: seq<FlowId>)
    | Deliver(node: string, replyArrives: bool)
    | LoseRequest(node: string, i: nat)
    | Restart(node: string)

  function EntryOf(id: FlowId, b: Bytes): ThroughputEntry {
    ThroughputEntry(id.srcIp, id.dstIp, id.srcPort, id.dstPort, b.tx, b.rx)
  }

  function BytesIn(kernel: Kernel, id: FlowId): Bytes {
    if id in kernel then kernel[id] else NO_BYTES
  }

  /** Copying the counters, in the order in which the kernel table yields its keys. */
  function Collect(node: string, kernel: Kernel, order: seq<FlowId>): Snapshot {
    Snapshot(node, seq(|order|, i requires 0 <= i < |order| => EntryOf(order[i], BytesIn(kernel, order[i]))), [])
  }

  /** The snapshot of the initial handshake. */
  function Handshake(node: string): Snapshot {
    Snapshot(node, [], [])
  }

  function Pending(s: System, node: string): seq<Snapshot> {
    if node in s.network then s.network[node] else []
  }

  function KernelOf(s: System, node: string): Kernel {
    if node in s.kernels then s.kernels[node] else map[]
  }

  /** The counters stay within their words, and new flows find room in the table. */
  predicate CanGrow(kernel: Kernel, id: FlowId, tx: u64, rx: u64) {
    && (id in kernel || |kernel| < MAX_ENTRIES)
    && BytesIn(kernel, id).tx + tx < TWO64
    && BytesIn(kernel, id).rx + rx < TWO64
  }

  function Grown(kernel: Kernel, id: FlowId, tx: u64, rx: u64): Kernel
    requires CanGrow(kernel, id, tx, rx)
  {
    kernel[id := Bytes(BytesIn(kernel, id).tx + tx, BytesIn(kernel, id).rx + rx)]
  }

  function Enqueue(s: System, node: string, snap: Snapshot): System {
    s.(network := s.network[node := Pending(s, node) + [snap]])
  }

  /** An action that is not possible in a state leaves it unchanged. */
  ghost function Apply(s: System, a: Action): System {
    match a
    case Start(node) =>
      if node in s.kernels then s
      else Enqueue(s.(kernels := s.kernels[node := map[]]), node, Handshake(node))
    case Grow(node, id, tx, rx) =>
      if node !in s.kernels || !CanGrow(s.kernels[node], id, tx, rx) then s
      else s.(kernels := s.kernels[node := Grown(s.kernels[node], id, tx, rx)])
    case Tick(node, order) =>
      if node !in s.kernels || !IsListing(order, s.kernels[node].Keys) then s
      else Enqueue(s, node, Collect(node, s.kernels[node], order))
    case Deliver(node, replyArrives) =>
      if Pending(s, node) == [] then s else
        var snap := Pending(s, node)[0];
        System(s.kernels, s.network[node := Pending(s, node)[1..]], s.nodes[node := snap],
               if replyArrives then s.acked[node := snap] else s.acked)
    case LoseRequest(node, i) =>
      if i >= |Pending(s, node)| then s
      else s.(network := s.network[node := Pending(s, node)[..i] + Pending(s, node)[i + 1..]])
    case Restart(node) =>
      System(s.kernels[node := map[]], s.network[node := [Handshake(node)]], s.nodes, s.acked)
  }

  ghost function Run(actions: seq<Action>): System {
    if actions == [] then System(map[], map[], map[], map[])
    else Apply(Run(actions[..|actions| - 1]), actions[|actions| - 1])
  }

  // Totals of one pair.

  function SnapshotTotal(snap: Snapshot, pk: string, d: Direction): int {
    SumSeq(snap.throughput, EntryIf(pk, d))
  }

  function FlowIf(kernel: Kernel, pk: string, d: Direction): FlowId -> int {
    (id: FlowId) => Amount(EntryOf(id, BytesIn(kernel, id)), pk, d)
  }

  ghost function KernelTotal(kernel: Kernel, pk: string, d: Direction): int {
    SumSet(kernel.Keys, FlowIf(kernel, pk, d))
  }

  /** A snapshot carries exactly the kernel's bytes, whatever the iteration order was. */
  lemma CollectIsExact(node: string, kernel: Kernel, order: seq<FlowId>, pk: string, d: Direction)
    requires IsListing(order, kernel.Keys)
    ensures SnapshotTotal(Collect(node, kernel, order), pk, d) == KernelTotal(kernel, pk, d)
  {
    hide Amount;
    SumListing(order, kernel.Keys, FlowIf(kernel, pk, d));
    SumSeqMap(order, Collect(node, kernel, order).throughput, FlowIf(kernel, pk, d), EntryIf(pk, d));
  }

  /** An entry carries its flow's own addresses, ports and bytes. */
  lemma CollectCopies(node: string, kernel: Kernel, order: seq<FlowId>, i: nat)
    requires IsListing(order, kernel.Keys) && i < |order|
    ensures
      var snap := Collect(node, kernel, order);
      && snap.nodeName == node && |snap.throughput| == |kernel| && order[i] in kernel
      && var e := snap.throughput[i];
         && e.srcIp == order[i].srcIp && e.dstIp == order[i].dstIp
         && e.srcPort == order[i].srcPort && e.dstPort == order[i].dstPort
         && e.txBytes == kernel[order[i]].tx && e.rxBytes == kernel[order[i]].rx
  {
    ListingSize(order, kernel.Keys);
    assert |kernel| == |kernel.Keys|;
  }

  lemma ListingSize(order: seq<FlowId>, s: set<FlowId>)
    requires IsListing(order, s)
    ensures |order| == |s|
  {
    ListingMultiset(order, s);
    assert |multiset(order)| == |multiset(s)|;
  }

  /** The kernel's total of two addresses, flow by flow. */
  lemma KernelTotalIs(kernel: Kernel, src: Ip, dst: Ip, d: Direction)
    ensures KernelTotal(kernel, PairKey(IpText(src), IpText(dst)), d) ==
            SumSet(kernel.Keys, (id: FlowId) =>
              if id !in kernel || IpText(id.srcIp) != IpText(src) || IpText(id.dstIp) != IpText(dst) then 0
              else if d.Transmitted? then kernel[id].tx else kernel[id].rx)
  {
    hide IpText, PairKey, SumSet;
    var pk := PairKey(IpText(src), IpText(dst));
    IpTextPlain(src, NUL);
    forall id | id in kernel
      ensures EntryKey(EntryOf(id, kernel[id])) == pk <==>
              IpText(id.srcIp) == IpText(src) && IpText(id.dstIp) == IpText(dst)
    {
      EntryNames(EntryOf(id, kernel[id]), IpText(src), IpText(dst));
    }
    SumCongruent(kernel.Keys, FlowIf(kernel, pk, d), (id: FlowId) =>
      if id !in kernel || IpText(id.srcIp) != IpText(src) || IpText(id.dstIp) != IpText(dst) then 0
      else if d.Transmitted? then kernel[id].tx else kernel[id].rx);
  }

  lemma AmountGrows(kernel: Kernel, id: FlowId, tx: u64, rx: u64, pk: string, d: Direction, x: FlowId)
    requires CanGrow(kernel, id, tx, rx)
    ensures FlowIf(kernel, pk, d)(x) <= FlowIf(Grown(kernel, id, tx, rx), pk, d)(x)
    ensures x !in kernel ==> FlowIf(kernel, pk, d)(x) == 0
  {
    hide IpText;
  }

  lemma GrowthIsMonotone(kernel: Kernel, id: FlowId, tx: u64, rx: u64, pk: string, d: Direction)
    requires CanGrow(kernel, id, tx, rx)
    ensures KernelTotal(kernel, pk, d) <= KernelTotal(Grown(kernel, id, tx, rx), pk, d)
  {
    hide SumSet, FlowIf;
    var grown := Grown(kernel, id, tx, rx);
    forall x
      ensures FlowIf(kernel, pk, d)(x) <= FlowIf(grown, pk, d)(x)
      ensures x !in kernel ==> FlowIf(kernel, pk, d)(x) == 0
    {
      AmountGrows(kernel, id, tx, rx, pk, d, x);
    }
    SumExtend(kernel.Keys, grown.Keys, FlowIf(kernel, pk, d));
    SumMonotone(grown.Keys, FlowIf(kernel, pk, d), FlowIf(grown, pk, d));
  }

  lemma KernelNotNegative(kernel: Kernel, pk: string, d: Direction)
    ensures KernelTotal(kernel, pk, d) >= 0
    ensures KernelTotal(map[], pk, d) == 0
  {
    hide Amount;
    var none: FlowId -> int := (id: FlowId) => 0;
    SumMonotone(kernel.Keys, none, FlowIf(kernel, pk, d));
    SumExtend({}, kernel.Keys, none);
  }

  // What every step keeps.

  function StoredTotal(nodes: Nodes, node: string, pk: string, d: Direction): int {
    SumSeq(NodeEntries(nodes, node), EntryIf(pk, d))
  }

  function PendingTotals(q: seq<Snapshot>, pk: string, d: Direction): (ts: seq<int>)
    ensures |ts| == |q| && forall i :: 0 <= i < |ts| ==> ts[i] == SnapshotTotal(q[i], pk, d)
  {
    seq(|q|, i requires 0 <= i < |q| => SnapshotTotal(q[i], pk, d))
  }

  ghost predicate Chain(acked: int, stored: int, pending: seq<int>, current: int) {
    && 0 <= acked <= stored <= current
    && (forall i :: 0 <= i < |pending| ==> stored <= pending[i] <= current)
    && (forall i, j :: 0 <= i < j < |pending| ==> pending[i] <= pending[j])
  }

  /** acknowledged <= stored <= under way, in sending order <= current. */
  ghost predicate InOrder(s: System, node: string, pk: string, d: Direction) {
    Chain(StoredTotal(s.acked, node, pk, d), StoredTotal(s.nodes, node, pk, d),
          PendingTotals(Pending(s, node), pk, d), KernelTotal(KernelOf(s, node), pk, d))
  }

  ghost predicate Known(s: System) {
    && s.nodes.Keys <= s.kernels.Keys
    && s.acked.Keys <= s.nodes.Keys
    && s.network.Keys <= s.kernels.Keys
  }

  lemma KnownKept(s: System, a: Action)
    requires Known(s)
    ensures Known(Apply(s, a))
  {
  }

  /** Only the node that acts is affected. */
  lemma OthersUntouched(s: System, a: Action, node: string)
    requires a.node != node
    ensures Pending(Apply(s, a), node) == Pending(s, node)
    ensures KernelOf(Apply(s, a), node) == KernelOf(s, node)
    ensures NodeEntries(Apply(s, a).nodes, node) == NodeEntries(s.nodes, node)
    ensures NodeEntries(Apply(s, a).acked, node) == NodeEntries(s.acked, node)
  {
    hide IsListing;
  }

  lemma StartKeeps(s: System, a: Action, pk: string, d: Direction)
    requires Known(s) && InOrder(s, a.node, pk, d) && a.Start?
    ensures InOrder(Apply(s, a), a.node, pk, d)
  {
    hide EntryIf, KernelTotal;
    if a.node !in s.kernels {
      var node := a.node;
      KernelNotNegative(map[], pk, d);
      assert Pending(Apply(s, a), node) == [Handshake(node)];
      assert SnapshotTotal(Handshake(node), pk, d) == 0;
      assert NodeEntries(s.nodes, node) == [] && NodeEntries(s.acked, node) == [];
    }
  }

  lemma GrowKeeps(s: System, a: Action, pk: string, d: Direction)
    requires InOrder(s, a.node, pk, d) && a.Grow?
    ensures InOrder(Apply(s, a), a.node, pk, d)
  {
    hide StoredTotal, PendingTotals, KernelTotal, Grown;
    var node, s' := a.node, Apply(s, a);
    if node in s.kernels && CanGrow(s.kernels[node], a.id, a.tx, a.rx) {
      GrowthIsMonotone(s.kernels[node], a.id, a.tx, a.rx, pk, d);
      assert Pending(s', node) == Pending(s, node);
    }
  }

  lemma TickKeeps(s: System, a: Action, pk: string, d: Direction)
    requires InOrder(s, a.node, pk, d) && a.Tick?
    ensures InOrder(Apply(s, a), a.node, pk, d)
  {
    hide StoredTotal, SnapshotTotal, KernelTotal, Collect, IsListing;
    var node := a.node;
    if node in s.kernels && IsListing(a.order, s.kernels[node].Keys) {
      CollectIsExact(node, s.kernels[node], a.order, pk, d);
      assert Pending(Apply(s, a), node) == Pending(s, node) + [Collect(node, s.kernels[node], a.order)];
    }
  }

  lemma DeliverKeeps(s: System, a: Action, pk: string, d: Direction)
    requires InOrder(s, a.node, pk, d) && a.Deliver?
    ensures InOrder(Apply(s, a), a.node, pk, d)
    ensures StoredTotal(s.nodes, a.node, pk, d) <= StoredTotal(Apply(s, a).nodes, a.node, pk, d)
  {
    hide EntryIf, SumSeq, KernelTotal;
    var node, q := a.node, Pending(s, a.node);
    if q != [] {
      assert Pending(Apply(s, a), node) == q[1..];
      assert PendingTotals(q[1..], pk, d) == PendingTotals(q, pk, d)[1..];
      assert StoredTotal(Apply(s, a).nodes, node, pk, d) == PendingTotals(q, pk, d)[0];
    }
  }

  lemma LossKeeps(s: System, a: Action, pk: string, d: Direction)
    requires InOrder(s, a.node, pk, d) && a.LoseRequest?
    ensures InOrder(Apply(s, a), a.node, pk, d)
  {
    hide StoredTotal, SnapshotTotal, KernelTotal;
    var q := Pending(s, a.node);
    if a.i < |q| {
      assert Pending(Apply(s, a), a.node) == q[..a.i] + q[a.i + 1..];
    }
  }

  lemma StepKeeps(s: System, a: Action, node: string, pk: string, d: Direction)
    requires Known(s) && InOrder(s, node, pk, d) && !a.Restart?
    ensures InOrder(Apply(s, a), node, pk, d)
    ensures StoredTotal(s.nodes, node, pk, d) <= StoredTotal(Apply(s, a).nodes, node, pk, d)
  {
    if a.node != node {
      hide KernelTotal, PendingTotals, Apply, Chain;
      OthersUntouched(s, a, node);
    } else {
      ActorKeeps(s, a, pk, d);
    }
  }

  lemma ActorKeeps(s: System, a: Action, pk: string, d: Direction)
    requires Known(s) && InOrder(s, a.node, pk, d) && !a.Restart?
    ensures InOrder(Apply(s, a), a.node, pk, d)
    ensures StoredTotal(s.nodes, a.node, pk, d) <= StoredTotal(Apply(s, a).nodes, a.node, pk, d)
  {
    hide InOrder, Known, StoredTotal, IsListing;
    match a
    case Start(_) => StartKeeps(s, a, pk, d);
    case Grow(_, _, _, _) => GrowKeeps(s, a, pk, d);
    case Tick(_, _) => TickKeeps(s, a, pk, d);
    case Deliver(_, _) => DeliverKeeps(s, a, pk, d);
    case LoseRequest(_, _) => LossKeeps(s, a, pk, d);
  }

  /** Every snapshot under way, stored or acknowledged carries the name of the node it is kept for, so
      filing by sender is filing by the name in the message. */
  ghost predicate Named(s: System, node: string) {
    && (forall i :: 0 <= i < |Pending(s, node)| ==> Pending(s, node)[i].nodeName == node)
    && (node in s.nodes ==> s.nodes[node].nodeName == node)
    && (node in s.acked ==> s.acked[node].nodeName == node)
  }

  lemma {:induction false} RunNamed(actions: seq<Action>, node: string)
    ensures Named(Run(actions), node)
  {
    if actions != [] {
      hide Named, Apply;
      RunNamed(actions[..|actions| - 1], node);
      NamedKept(Run(actions[..|actions| - 1]), actions[|actions| - 1], node);
    }
  }

  lemma NamedKept(s: System, a: Action, node: string)
    requires Named(s, node)
    ensures Named(Apply(s, a), node)
  {
    hide IsListing, CanGrow;
    var q, q' := Pending(s, node), Pending(Apply(s, a), node);
    if a.Tick? && a.node == node && q' != q {
      assert q' == q + [Collect(node, s.kernels[node], a.order)];
    }
  }

  /** Growing adds to the flow's own counters and to no others. */
  lemma GrowAdds(s: System, node: string, id: FlowId, tx: u64, rx: u64, other: FlowId)
    requires node in s.kernels && CanGrow(s.kernels[node], id, tx, rx)
    ensures
      var before, after := KernelOf(s, node), KernelOf(Apply(s, Grow(node, id, tx, rx)), node);
      && BytesIn(after, id).tx == BytesIn(before, id).tx + tx
      && BytesIn(after, id).rx == BytesIn(before, id).rx + rx
      && (other != id ==> (other in after <==> other in before) && BytesIn(after, other) == BytesIn(before, other))
  {
  }

  ghost predicate NoRestart(actions: seq<Action>) {
    forall i :: 0 <= i < |actions| ==> !actions[i].Restart?
  }

  lemma {:induction false} RunKnown(actions: seq<Action>)
    ensures Known(Run(actions))
  {
    if actions != [] {
      RunKnown(actions[..|actions| - 1]);
      KnownKept(Run(actions[..|actions| - 1]), actions[|actions| - 1]);
    }
  }

  lemma {:induction false} RunInOrder(actions: seq<Action>, node: string, pk: string, d: Direction)
    requires NoRestart(actions)
    ensures InOrder(Run(actions), node, pk, d)
  {
    if actions != [] {
      hide InOrder, Known, Apply;
      var n := |actions| - 1;
      RunInOrder(actions[..n], node, pk, d);
      RunKnown(actions[..n]);
      StepKeeps(Run(actions[..n]), actions[n], node, pk, d);
    } else {
      hide Amount;
      KernelNotNegative(map[], pk, d);
    }
  }

  // The cluster.

  ghost function KernelsOf(s: System, pk: string, d: Direction): string -> int {
    node => KernelTotal(KernelOf(s, node), pk, d)
  }

  /** The bytes all kernels hold for a pair at this moment. */
  ghost function ClusterTotal(s: System, pk: string, d: Direction): int {
    SumSet(s.kernels.Keys, KernelsOf(s, pk, d))
  }

  lemma NotStored(nodes: Nodes, keys: set<string>, pk: string, d: Direction)
    requires nodes.Keys <= keys
    ensures PairTotal(nodes, pk, d) == SumSet(keys, NodeTotal(nodes, pk, d))
  {
    hide SumSet, EntryIf;
    SumExtend(nodes.Keys, keys, NodeTotal(nodes, pk, d));
  }

  /** Main result: in every state of every run without a restart, the totals the aggregator holds
      for a pair lie between the acknowledged totals and the kernels' current totals. */
  lemma StoredBetweenAckedAndCurrent(actions: seq<Action>, pk: string, d: Direction)
    requires NoRestart(actions)
    ensures PairTotal(Run(actions).acked, pk, d) <= PairTotal(Run(actions).nodes, pk, d)
    ensures PairTotal(Run(actions).nodes, pk, d) <= ClusterTotal(Run(actions), pk, d)
  {
    hide SumSet, Run, KernelTotal, PendingTotals, PairTotal, EntryIf;
    var s := Run(actions);
    RunKnown(actions);
    forall node
      ensures NodeTotal(s.acked, pk, d)(node) <= NodeTotal(s.nodes, pk, d)(node) <= KernelsOf(s, pk, d)(node)
    {
      RunInOrder(actions, node, pk, d);
    }
    NotStored(s.acked, s.kernels.Keys, pk, d);
    NotStored(s.nodes, s.kernels.Keys, pk, d);
    SumMonotone(s.kernels.Keys, NodeTotal(s.acked, pk, d), NodeTotal(s.nodes, pk, d));
    SumMonotone(s.kernels.Keys, NodeTotal(s.nodes, pk, d), KernelsOf(s, pk, d));
  }

  /** Main result: what the aggregator holds for a pair never goes down while a run goes on. */
  lemma {:induction false} StoredNeverDecreases(actions: seq<Action>, more: seq<Action>, pk: string, d: Direction)
    requires NoRestart(actions + more)
    ensures PairTotal(Run(actions).nodes, pk, d) <= PairTotal(Run(actions + more).nodes, pk, d)
    decreases |more|
  {
    hide PairTotal, Apply, Known, InOrder;
    if more == [] {
      assert actions + more == actions;
    } else {
      var n := |more| - 1;
      var before := actions + more[..n];
      assert actions + more == before + [more[n]];
      assert (before + [more[n]])[..|before|] == before;
      StoredNeverDecreases(actions, more[..n], pk, d);
      RunKnown(before);
      forall node ensures InOrder(Run(before), node, pk, d) {
        RunInOrder(before, node, pk, d);
      }
      assert (actions + more)[|actions| + n] == more[n];
      NextStored(Run(before), more[n], pk, d);
    }
  }

  lemma NextStored(s: System, a: Action, pk: string, d: Direction)
    requires Known(s) && !a.Restart?
    requires forall node :: InOrder(s, node, pk, d)
    ensures PairTotal(s.nodes, pk, d) <= PairTotal(Apply(s, a).nodes, pk, d)
  {
    hide Apply, InOrder, PairTotal, SumSet, EntryIf;
    var s' := Apply(s, a);
    KnownKept(s, a);
    var keys := s.nodes.Keys + s'.nodes.Keys;
    NotStored(s.nodes, keys, pk, d);
    NotStored(s'.nodes, keys, pk, d);
    forall node ensures NodeTotal(s.nodes, pk, d)(node) <= NodeTotal(s'.nodes, pk, d)(node) {
      StepKeeps(s, a, node, pk, d);
    }
    SumMonotone(keys, NodeTotal(s.nodes, pk, d), NodeTotal(s'.nodes, pk, d));
  }

  ghost predicate HasRow(rows: seq<TopTalker>, pk: string) {
    exists t :: t in rows && RowKey(t) == pk
  }

  /** A pair for which any bytes are stored has a row. */
  lemma StoredPairHasRow(rows: seq<TopTalker>, nodes: Nodes, pk: string, d: Direction)
    requires TopOf(rows, nodes) && PairTotal(nodes, pk, d) > 0
    ensures HasRow(rows, pk)
  {
    hide EntryIf, EntryKey, RowKey, TopRow;
    if pk !in PairsSeen(nodes) {
      forall name | name in nodes ensures NodeTotal(nodes, pk, d)(name) == 0 {
        NotSeen(NodeEntries(nodes, name), pk, d);
      }
      SumExtend({}, nodes.Keys, NodeTotal(nodes, pk, d));
    }
    assert pk in RowKeys(rows);
  }

  ghost predicate TotalsFit(s: System, pk: string) {
    forall d :: ClusterTotal(s, pk, d) < TWO64
  }

  /** Main result for the reported rows: a pair with acknowledged bytes has a row, and unless a kernel
      total outgrows 64 bits, a pair's row shows at least what was acknowledged and at most what the
      kernels hold. */
  lemma TopIsSandwiched(actions: seq<Action>, rows: seq<TopTalker>, pk: string)
    requires NoRestart(actions) && TopOf(rows, Run(actions).nodes)
    ensures forall d :: PairTotal(Run(actions).acked, pk, d) > 0 ==> HasRow(rows, pk)
    ensures forall t :: t in rows && RowKey(t) == pk && TotalsFit(Run(actions), pk) ==>
              && PairTotal(Run(actions).acked, pk, Transmitted) <= t.txBytes
              && t.txBytes <= ClusterTotal(Run(actions), pk, Transmitted)
              && PairTotal(Run(actions).acked, pk, Received) <= t.rxBytes
              && t.rxBytes <= ClusterTotal(Run(actions), pk, Received)
  {
    hide *;
    var nodes, acked := Run(actions).nodes, Run(actions).acked;
    forall d
      ensures 0 <= PairTotal(acked, pk, d) <= PairTotal(nodes, pk, d) <= ClusterTotal(Run(actions), pk, d)
      ensures PairTotal(acked, pk, d) > 0 ==> HasRow(rows, pk)
    {
      StoredBetweenAckedAndCurrent(actions, pk, d);
      TotalNotNegative(acked, pk, d);
      if PairTotal(acked, pk, d) > 0 {
        StoredPairHasRow(rows, nodes, pk, d);
      }
    }
    forall t | t in rows && RowKey(t) == pk && TotalsFit(Run(actions), pk)
      ensures t.txBytes == PairTotal(nodes, pk, Transmitted) && t.rxBytes == PairTotal(nodes, pk, Received)
    {
      RowShows(rows, t, nodes);
      FitsIn(Run(actions), pk);
      WrapSmall64(PairTotal(nodes, pk, Transmitted));
      WrapSmall64(PairTotal(nodes, pk, Received));
    }
  }

  /** A row with any bytes stays: later there is a row of its pair, and it shows no fewer bytes. */
  lemma RowsNeverDecrease(actions: seq<Action>, more: seq<Action>, rows: seq<TopTalker>, t: TopTalker,
                          later: seq<TopTalker>)
    requires NoRestart(actions + more)
    requires TopOf(rows, Run(actions).nodes) && t in rows
    requires TopOf(later, Run(actions + more).nodes)
    requires TotalsFit(Run(actions + more), RowKey(t))
    ensures t.txBytes > 0 || t.rxBytes > 0 ==> HasRow(later, RowKey(t))
    ensures forall t' :: t' in later && RowKey(t') == RowKey(t) ==> t.txBytes <= t'.txBytes && t.rxBytes <= t'.rxBytes
  {
    hide *;
    var before, after, pk := Run(actions).nodes, Run(actions + more).nodes, RowKey(t);
    RowShows(rows, t, before);
    forall d
      ensures 0 <= PairTotal(before, pk, d) <= PairTotal(after, pk, d) < TWO64
      ensures Wrap64(PairTotal(before, pk, d)) == PairTotal(before, pk, d)
      ensures Wrap64(PairTotal(after, pk, d)) == PairTotal(after, pk, d)
      ensures PairTotal(before, pk, d) > 0 ==> HasRow(later, pk)
    {
      TotalsGrow(actions, more, pk, d);
      FitsIn(Run(actions + more), pk);
      WrapSmall64(PairTotal(before, pk, d));
      WrapSmall64(PairTotal(after, pk, d));
      if PairTotal(before, pk, d) > 0 {
        StoredPairHasRow(later, after, pk, d);
      }
    }
    forall t' | t' in later && RowKey(t') == pk
      ensures t.txBytes <= t'.txBytes && t.rxBytes <= t'.rxBytes
    {
      RowShows(later, t', after);
    }
  }

  lemma FitsIn(s: System, pk: string)
    requires TotalsFit(s, pk)
    ensures forall d :: ClusterTotal(s, pk, d) < TWO64
  {
  }

  lemma RowShows(rows: seq<TopTalker>, t: TopTalker, nodes: Nodes)
    requires TopOf(rows, nodes) && t in rows
    ensures t.txBytes == Wrap64(PairTotal(nodes, RowKey(t), Transmitted))
    ensures t.rxBytes == Wrap64(PairTotal(nodes, RowKey(t), Received))
  {
    hide PairTotal, RowKey;
    assert TopRow(t, nodes);
  }

  lemma TotalsGrow(actions: seq<Action>, more: seq<Action>, pk: string, d: Direction)
    requires NoRestart(actions + more)
    ensures 0 <= PairTotal(Run(actions).nodes, pk, d) <= PairTotal(Run(actions + more).nodes, pk, d)
         <= ClusterTotal(Run(actions + more), pk, d)
  {
    hide *;
    StoredNeverDecreases(actions, more, pk, d);
    StoredBetweenAckedAndCurrent(actions + more, pk, d);
    TotalNotNegative(Run(actions).nodes, pk, d);
  }

  lemma TotalNotNegative(nodes: Nodes, pk: string, d: Direction)
    ensures PairTotal(nodes, pk, d) >= 0
  {
    hide EntryIf;
    var none: string -> int := name => 0;
    forall name ensures NodeTotal(nodes, pk, d)(name) >= 0 {
      EntriesNotNegative(NodeEntries(nodes, name), pk, d);
    }
    SumMonotone(nodes.Keys, none, NodeTotal(nodes, pk, d));
    SumExtend({}, nodes.Keys, none);
  }

  lemma {:induction false} EntriesNotNegative(entries: seq<ThroughputEntry>, pk: string, d: Direction)
    ensures SumSeq(entries, EntryIf(pk, d)) >= 0
  {
    hide Amount;
    if entries != [] {
      EntriesNotNegative(entries[..|entries| - 1], pk, d);
    }
  }

  /** A round without losses catches up: from any state in which nothing of a node is under way, a
      tick, the delivery and its reply leave the store and the acknowledgement with the node's
      current bytes of every pair. */
  lemma FullRoundCatchesUp(s: System, node: string, order: seq<FlowId>, pk: string, d: Direction)
    requires node in s.kernels && Pending(s, node) == [] && IsListing(order, s.kernels[node].Keys)
    ensures
      var s' := Apply(Apply(s, Tick(node, order)), Deliver(node, true));
      && KernelOf(s', node) == KernelOf(s, node) && Pending(s', node) == []
      && StoredTotal(s'.nodes, node, pk, d) == KernelTotal(KernelOf(s, node), pk, d)
      && StoredTotal(s'.acked, node, pk, d) == KernelTotal(KernelOf(s, node), pk, d)
  {
    hide IsListing, KernelTotal, Collect, SumSeq;
    var snap := Collect(node, s.kernels[node], order);
    CollectIsExact(node, s.kernels[node], order, pk, d);
    assert Pending(Apply(s, Tick(node, order)), node) == [snap];
  }

  // Restarts, which the results above exclude.

  /** The state after an agent's restart and the delivery of its handshake. */
  ghost function Restarted(s: System, node: string, replyArrives: bool): System {
    Apply(Apply(s, Restart(node)), Deliver(node, replyArrives))
  }

  /** The handshake wipes what the node had reported, so the cluster total of a pair is kept if and
      only if the node had stored nothing for it. An acknowledged handshake puts the node in order
      again: from there on every step keeps the order. */
  lemma RestartLosesBytes(s: System, node: string, replyArrives: bool, pk: string, d: Direction)
    ensures StoredTotal(Restarted(s, node, replyArrives).nodes, node, pk, d) == 0
    ensures PairTotal(Restarted(s, node, replyArrives).nodes, pk, d) ==
            PairTotal(s.nodes, pk, d) - StoredTotal(s.nodes, node, pk, d)
    ensures PairTotal(Restarted(s, node, replyArrives).nodes, pk, d) == PairTotal(s.nodes, pk, d) <==>
            StoredTotal(s.nodes, node, pk, d) == 0
    ensures InOrder(Restarted(s, node, true), node, pk, d)
  {
    hide EntryIf, PairTotal, SumSet, NodeEntries, KernelTotal;
    var s' := Restarted(s, node, replyArrives);
    assert s'.nodes == s.nodes[node := Handshake(node)];
    HandshakeIsEmpty(s.nodes, node, pk, d);
    TotalsWithout(s.nodes, s'.nodes, node, pk, d);
    HandshakeInOrder(s, node, pk, d);
  }

  lemma HandshakeIsEmpty(nodes: Nodes, node: string, pk: string, d: Direction)
    ensures StoredTotal(nodes[node := Handshake(node)], node, pk, d) == 0
  {
  }

  lemma HandshakeInOrder(s: System, node: string, pk: string, d: Direction)
    ensures InOrder(Restarted(s, node, true), node, pk, d)
  {
    hide EntryIf, KernelTotal;
    KernelNotNegative(map[], pk, d);
    var s' := Restarted(s, node, true);
    assert Pending(s', node) == [] && KernelOf(s', node) == map[];
    HandshakeIsEmpty(s.nodes, node, pk, d);
    HandshakeIsEmpty(s.acked, node, pk, d);
  }

  /** Only one node differs. */
  lemma TotalsWithout(nodes: Nodes, nodes': Nodes, node: string, pk: string, d: Direction)
    requires nodes'.Keys == nodes.Keys + {node}
    requires forall name :: name in nodes && name != node ==> nodes'[name] == nodes[name]
    ensures PairTotal(nodes', pk, d) - StoredTotal(nodes', node, pk, d) ==
            PairTotal(nodes, pk, d) - StoredTotal(nodes, node, pk, d)
  {
    hide EntryIf, SumSet;
    NotStored(nodes, nodes'.Keys, pk, d);
    SumPick(nodes'.Keys, NodeTotal(nodes, pk, d), node);
    SumPick(nodes'.Keys, NodeTotal(nodes', pk, d), node);
    SumCongruent(nodes'.Keys - {node}, NodeTotal(nodes, pk, d), NodeTotal(nodes', pk, d));
  }

  /** A node starts and sends five bytes in a flow; it reports them, and restarts. */
  function FirstBytes(node: string, id: FlowId): seq<Action> {
    [Start(node), Grow(node, id, 5, 0), Deliver(node, true)]
  }

  function Report(node: string, id: FlowId): seq<Action> {
    [Tick(node, [id]), Deliver(node, true)]
  }

  function Comeback(node: string): seq<Action> {
    [Restart(node), Deliver(node, true)]
  }

  lemma RunTwo(actions: seq<Action>, a: Action, b: Action)
    ensures Run(actions + [a, b]) == Apply(Apply(Run(actions), a), b)
  {
    assert (actions + [a, b])[..|actions| + 1] == actions + [a];
    assert (actions + [a])[..|actions|] == actions;
  }

  lemma RunFirstBytes(node: string, id: FlowId)
    ensures
      var kernel: Kernel := map[id := Bytes(5, 0)];
      Run(FirstBytes(node, id)) ==
      System(map[node := kernel], map[node := []], map[node := Handshake(node)], map[node := Handshake(node)])
  {
    var start, grow := Start(node), Grow(node, id, 5, 0);
    var kernel: Kernel := map[id := Bytes(5, 0)];
    assert FirstBytes(node, id)[..2] == [] + [start, grow];
    RunTwo([], start, grow);
    assert Pending(Run([]), node) + [Handshake(node)] == [Handshake(node)];
    assert Apply(Run([]), start) == System(map[node := map[]], map[node := [Handshake(node)]], map[], map[]);
    assert Grown(map[], id, 5, 0) == kernel;
    assert Run(FirstBytes(node, id)[..2]) == System(map[node := kernel], map[node := [Handshake(node)]], map[], map[]);
  }

  /** A run in which a stored total goes down, from five bytes to none. */
  lemma RestartedAgentLosesBytes(node: string, id: FlowId)
    ensures
      var before, pk := FirstBytes(node, id) + Report(node, id), PairKey(IpText(id.srcIp), IpText(id.dstIp));
      && NoRestart(before) && PairTotal(Run(before).nodes, pk, Transmitted) == 5
      && PairTotal(Run(before + Comeback(node)).nodes, pk, Transmitted) == 0
  {
    hide IpText, Run, Apply, KernelTotal, StoredTotal, SumSet;
    var pk := PairKey(IpText(id.srcIp), IpText(id.dstIp));
    var actions := FirstBytes(node, id);
    RunFirstBytes(node, id);
    RunTwo(actions, Tick(node, [id]), Deliver(node, true));
    FullRoundCatchesUp(Run(actions), node, [id], pk, Transmitted);
    var before := Run(actions + Report(node, id));
    FiveBytes(id);
    OnlyNode(Run(actions), node, [id], pk, Transmitted);
    RunTwo(actions + Report(node, id), Restart(node), Deliver(node, true));
    RestartLosesBytes(before, node, true, pk, Transmitted);
  }

  lemma FiveBytes(id: FlowId)
    ensures KernelTotal(map[id := Bytes(5, 0)], PairKey(IpText(id.srcIp), IpText(id.dstIp)), Transmitted) == 5
  {
    hide IpText;
    var pk := PairKey(IpText(id.srcIp), IpText(id.dstIp));
    var kernel: Kernel := map[id := Bytes(5, 0)];
    SumPick({id}, FlowIf(kernel, pk, Transmitted), id);
    assert kernel.Keys == {id};
  }

  /** The total of a cluster of one node is that node's. */
  lemma OnlyNode(s: System, node: string, order: seq<FlowId>, pk: string, d: Direction)
    requires s.nodes.Keys == {node}
    ensures
      var s' := Apply(Apply(s, Tick(node, order)), Deliver(node, true));
      PairTotal(s'.nodes, pk, d) == StoredTotal(s'.nodes, node, pk, d)
  {
    hide IsListing, EntryIf;
    var s' := Apply(Apply(s, Tick(node, order)), Deliver(node, true));
    SumPick({node}, NodeTotal(s'.nodes, pk, d), node);
    assert s'.nodes.Keys == {node};
  }
}
