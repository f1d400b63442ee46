/** The aggregator's ranking of address pairs by bytes, summed over the snapshots of all nodes. */
module TopList {
  import opened Machine
  import opened Sums
  import opened Sorting
  import opened PairKeys
  import opened Addresses
  import opened ByteTallies
  import opened Snapshots

  datatype TopTalker = TopTalker(source: string, destination: string, txBytes: u64, rxBytes: u64, totalBytes: u64)

  function EntryKey(e: ThroughputEntry): string {
    PairKey(IpText(e.srcIp), IpText(e.dstIp))
  }

  function EntryBytes(e: ThroughputEntry, d: Direction): u64 {
    if d.Transmitted? then e.txBytes else e.rxBytes
  }

  /** The bytes an entry adds to a pair. */
  function Amount(e: ThroughputEntry, pk: string, d: Direction): u64 {
    if EntryKey(e) == pk then EntryBytes(e, d) else 0
  }

  function EntryIf(pk: string, d: Direction): ThroughputEntry -> int {
    (e: ThroughputEntry) => Amount(e, pk, d)
  }

  function NodeEntries(nodes: Nodes, name: string): seq<ThroughputEntry> {
    if name in nodes then nodes[name].throughput else []
  }

  /** The bytes one node reports for a pair. */
  function NodeTotal(nodes: Nodes, pk: string, d: Direction): string -> int {
    name => SumSeq(NodeEntries(nodes, name), EntryIf(pk, d))
  }

  /** The bytes all nodes report for a pair. */
  ghost function PairTotal(nodes: Nodes, pk: string, d: Direction): int {
    SumSet(nodes.Keys, NodeTotal(nodes, pk, d))
  }

  ghost function EntryKeys(entries: seq<ThroughputEntry>): set<string> {
    set e | e in entries :: EntryKey(e)
  }

  /** The pairs any node reports on. */
  ghost function PairsSeen(nodes: Nodes): set<string> {
    set name, e | name in nodes && e in nodes[name].throughput :: EntryKey(e)
  }

  function RowKey(t: TopTalker): string {
    PairKey(t.source, t.destination)
  }

  ghost function RowKeys(rows: seq<TopTalker>): set<string> {
    set t | t in rows :: RowKey(t)
  }

  function Largest(): (TopTalker, TopTalker) -> bool {
    (a: TopTalker, b: TopTalker) => a.totalBytes >= b.totalBytes
  }

  ghost predicate TopRow(t: TopTalker, nodes: Nodes) {
    && t.txBytes == Wrap64(PairTotal(nodes, RowKey(t), Transmitted))
    && t.rxBytes == Wrap64(PairTotal(nodes, RowKey(t), Received))
    && t.totalBytes == Add64(t.txBytes, t.rxBytes)
  }

  /** One row for each pair seen, with the wrapped total over all nodes, largest first. */
  ghost predicate TopOf(rows: seq<TopTalker>, nodes: Nodes) {
    && RowKeys(rows) == PairsSeen(nodes) && |rows| == |PairsSeen(nodes)|
    && (forall i :: 0 <= i < |rows| ==> TopRow(rows[i], nodes))
    && Ordered(rows, Largest())
  }

  // The rows, in terms of the entries themselves.

  lemma EntryNames(e: ThroughputEntry, src: string, dst: string)
    requires NUL !in src
    ensures EntryKey(e) == PairKey(src, dst) <==> IpText(e.srcIp) == src && IpText(e.dstIp) == dst
  {
    hide IpText;
    IpTextPlain(e.srcIp, NUL);
    if EntryKey(e) == PairKey(src, dst) {
      PairKeyInjective(IpText(e.srcIp), IpText(e.dstIp), src, dst);
    }
  }

  /** Some node has an entry with the two addresses of a row: its source is the source there, its
      destination the destination. */
  lemma RowHasEntry(rows: seq<TopTalker>, nodes: Nodes, t: TopTalker) returns (name: string, e: ThroughputEntry)
    requires TopOf(rows, nodes) && t in rows
    ensures name in nodes && e in nodes[name].throughput
    ensures RowKey(t) == EntryKey(e)
  {
    hide EntryKey, RowKey, TopRow;
    assert RowKey(t) in RowKeys(rows);
    name, e :| name in nodes && e in nodes[name].throughput && EntryKey(e) == RowKey(t);
  }

  /** The total of two names, entry by entry. */
  lemma NamedTotal(nodes: Nodes, src: string, dst: string, d: Direction)
    requires NUL !in src
    ensures PairTotal(nodes, PairKey(src, dst), d) ==
            SumSet(nodes.Keys, name => if name !in nodes then 0 else
              SumSeq(nodes[name].throughput, (e: ThroughputEntry) =>
                if IpText(e.srcIp) != src || IpText(e.dstIp) != dst then 0
                else if d.Transmitted? then e.txBytes else e.rxBytes))
  {
    hide IpText, EntryKey, PairKey, SumSet, SumSeq, PairTotal;
    forall e: ThroughputEntry
      ensures EntryKey(e) == PairKey(src, dst) <==> IpText(e.srcIp) == src && IpText(e.dstIp) == dst
    {
      EntryNames(e, src, dst);
    }
    TotalByNames(nodes, PairKey(src, dst), d, (e: ThroughputEntry) =>
      if IpText(e.srcIp) != src || IpText(e.dstIp) != dst then 0
      else if d.Transmitted? then e.txBytes else e.rxBytes);
  }

  lemma PlainRow(rows: seq<TopTalker>, nodes: Nodes, t: TopTalker) returns (name: string, e: ThroughputEntry)
    requires TopOf(rows, nodes) && t in rows && NUL !in t.source
    ensures name in nodes && e in nodes[name].throughput
    ensures t.source == IpText(e.srcIp) && t.destination == IpText(e.dstIp)
  {
    hide IpText, TopOf;
    name, e := RowHasEntry(rows, nodes, t);
    EntryNames(e, t.source, t.destination);
  }

  /** A row that names addresses names those of an entry, and in each direction it shows, modulo 2^64,
      the bytes of all entries with its two addresses on all nodes. */
  lemma RowAddsUp(rows: seq<TopTalker>, nodes: Nodes, t: TopTalker, d: Direction)
    requires TopOf(rows, nodes) && t in rows && NUL !in t.source
    ensures exists name, e :: name in nodes && e in nodes[name].throughput
              && t.source == IpText(e.srcIp) && t.destination == IpText(e.dstIp)
    ensures (if d.Transmitted? then t.txBytes else t.rxBytes) ==
            Wrap64(SumSet(nodes.Keys, name => if name !in nodes then 0 else
              SumSeq(nodes[name].throughput, (e: ThroughputEntry) =>
                if IpText(e.srcIp) != t.source || IpText(e.dstIp) != t.destination then 0
                else if d.Transmitted? then e.txBytes else e.rxBytes)))
    ensures t.totalBytes == (t.txBytes + t.rxBytes) % 0x1_0000_0000_0000_0000
  {
    hide IpText, PairKey, PairTotal, SumSet, SumSeq, Wrap64, PairsSeen;
    var name, e := PlainRow(rows, nodes, t);
    NamedTotal(nodes, t.source, t.destination, d);
    assert TopRow(t, nodes);
    WholeTotal(t.txBytes, t.rxBytes);
  }

  lemma WholeTotal(a: u64, b: u64)
    ensures Add64(a, b) == (a + b) % 0x1_0000_0000_0000_0000
  {
  }

  lemma TotalByNames(nodes: Nodes, pk: string, d: Direction, f: ThroughputEntry -> int)
    requires forall e :: f(e) == Amount(e, pk, d)
    ensures PairTotal(nodes, pk, d) ==
            SumSet(nodes.Keys, name => if name !in nodes then 0 else SumSeq(nodes[name].throughput, f))
  {
    hide Amount;
    forall name | name in nodes
      ensures NodeTotal(nodes, pk, d)(name) == SumSeq(nodes[name].throughput, f)
    {
      SumSeqCongruent(nodes[name].throughput, EntryIf(pk, d), f);
    }
    SumCongruent(nodes.Keys, NodeTotal(nodes, pk, d),
                 name => if name !in nodes then 0 else SumSeq(nodes[name].throughput, f));
  }

  /** And the other way: the addresses of each entry have a row. */
  lemma EntryIsRanked(rows: seq<TopTalker>, nodes: Nodes, name: string, e: ThroughputEntry) returns (t: TopTalker)
    requires TopOf(rows, nodes) && name in nodes && e in nodes[name].throughput
    ensures t in rows
    ensures t.source + [NUL] + t.destination == IpText(e.srcIp) + [NUL] + IpText(e.dstIp)
  {
    hide IpText, TopRow;
    assert EntryKey(e) in PairsSeen(nodes);
    assert EntryKey(e) in RowKeys(rows);
    t :| t in rows && RowKey(t) == EntryKey(e);
  }

  /** The largest total comes first. */
  lemma TopDescends(rows: seq<TopTalker>, nodes: Nodes, i: nat, j: nat)
    requires TopOf(rows, nodes) && i < j < |rows|
    ensures rows[i].totalBytes >= rows[j].totalBytes
  {
    hide TopRow, PairsSeen;
    assert Largest()(rows[i], rows[j]);
  }

  // The tally over a list of entries.

  ghost predicate BytesOf(b: Bytes, entries: seq<ThroughputEntry>, pk: string) {
    && b.tx == Wrap64(SumSeq(entries, EntryIf(pk, Transmitted)))
    && b.rx == Wrap64(SumSeq(entries, EntryIf(pk, Received)))
  }

  ghost predicate EntriesTallied(v: Tally, entries: seq<ThroughputEntry>) {
    && v.Keys == EntryKeys(entries)
    && forall pk :: pk in v ==> BytesOf(v[pk], entries, pk)
  }

  lemma {:induction false} NotSeen(entries: seq<ThroughputEntry>, pk: string, d: Direction)
    requires pk !in EntryKeys(entries)
    ensures SumSeq(entries, EntryIf(pk, d)) == 0
  {
    hide EntryKey;
    if entries != [] {
      var n := |entries| - 1;
      assert EntryKey(entries[n]) in EntryKeys(entries);
      assert EntryKeys(entries[..n]) <= EntryKeys(entries);
      NotSeen(entries[..n], pk, d);
    }
  }

  lemma EntryAdds(entries: seq<ThroughputEntry>, e: ThroughputEntry, pk: string, d: Direction)
    ensures Wrap64(SumSeq(entries + [e], EntryIf(pk, d))) ==
            Add64(Wrap64(SumSeq(entries, EntryIf(pk, d))), Amount(e, pk, d))
  {
    hide EntryKey, Wrap64, Add64;
    assert (entries + [e])[..|entries|] == entries;
    WrapNext64(SumSeq(entries, EntryIf(pk, d)), Amount(e, pk, d));
  }

  lemma EntryStepAt(v: Tally, entries: seq<ThroughputEntry>, e: ThroughputEntry, pk: string)
    requires EntriesTallied(v, entries)
    requires pk in v || pk == EntryKey(e)
    ensures BytesOf(AddAt(v, EntryKey(e), Bytes(e.txBytes, e.rxBytes))[pk], entries + [e], pk)
  {
    hide EntryKey, EntryKeys, SumSeq;
    EntryAdds(entries, e, pk, Transmitted);
    EntryAdds(entries, e, pk, Received);
    if pk !in v {
      NotSeen(entries, pk, Transmitted);
      NotSeen(entries, pk, Received);
    }
  }

  lemma EntryStep(v: Tally, entries: seq<ThroughputEntry>, e: ThroughputEntry)
    requires EntriesTallied(v, entries)
    ensures EntriesTallied(AddAt(v, EntryKey(e), Bytes(e.txBytes, e.rxBytes)), entries + [e])
  {
    hide EntryKey, BytesOf, Plus;
    var w := AddAt(v, EntryKey(e), Bytes(e.txBytes, e.rxBytes));
    assert EntryKeys(entries + [e]) == EntryKeys(entries) + {EntryKey(e)};
    forall pk | pk in w ensures BytesOf(w[pk], entries + [e], pk) {
      EntryStepAt(v, entries, e, pk);
    }
  }

  // The nodes, in the order of their visit.

  function EntriesOf(nodes: Nodes, order: seq<string>): seq<ThroughputEntry> {
    if order == [] then [] else
      EntriesOf(nodes, order[..|order| - 1]) + NodeEntries(nodes, order[|order| - 1])
  }

  lemma {:induction false} EntriesTotal(nodes: Nodes, order: seq<string>, pk: string, d: Direction)
    ensures SumSeq(EntriesOf(nodes, order), EntryIf(pk, d)) == SumSeq(order, NodeTotal(nodes, pk, d))
    decreases |order|
  {
    hide EntryKey, NodeEntries;
    if order != [] {
      var n := |order| - 1;
      EntriesTotal(nodes, order[..n], pk, d);
      SumSeqConcat(EntriesOf(nodes, order[..n]), NodeEntries(nodes, order[n]), EntryIf(pk, d));
    }
  }

  lemma {:induction false} EntriesSeen(nodes: Nodes, order: seq<string>, e: ThroughputEntry)
    ensures e in EntriesOf(nodes, order) <==> exists name :: name in order && e in NodeEntries(nodes, name)
    decreases |order|
  {
    hide NodeEntries;
    if order != [] {
      var n := |order| - 1;
      EntriesSeen(nodes, order[..n], e);
      assert order == order[..n] + [order[n]];
    }
  }

  lemma AllSeen(nodes: Nodes, order: seq<string>)
    requires IsListing(order, nodes.Keys)
    ensures EntryKeys(EntriesOf(nodes, order)) == PairsSeen(nodes)
  {
    hide EntryKey, EntriesOf;
    forall e ensures e in EntriesOf(nodes, order) <==> exists name :: name in nodes && e in nodes[name].throughput {
      EntriesSeen(nodes, order, e);
    }
  }

  lemma TotalsOf(v: Tally, nodes: Nodes, order: seq<string>, pk: string)
    requires IsListing(order, nodes.Keys)
    requires EntriesTallied(v, EntriesOf(nodes, order)) && pk in v
    ensures v[pk] == Bytes(Wrap64(PairTotal(nodes, pk, Transmitted)), Wrap64(PairTotal(nodes, pk, Received)))
    ensures NUL in pk
  {
    hide EntriesOf, IpText, SumSeq, SumSet;
    forall d: Direction
      ensures SumSeq(EntriesOf(nodes, order), EntryIf(pk, d)) == PairTotal(nodes, pk, d)
    {
      EntriesTotal(nodes, order, pk, d);
      SumListing(order, nodes.Keys, NodeTotal(nodes, pk, d));
    }
    assert BytesOf(v[pk], EntriesOf(nodes, order), pk);
    var e :| e in EntriesOf(nodes, order) && EntryKey(e) == pk;
    assert pk[|IpText(e.srcIp)|] == NUL;
  }

  /** The inner loop: the entries of one node. */
  method AddEntries(pairs: ByteTable, added: seq<ThroughputEntry>, ghost entries: seq<ThroughputEntry>)
    requires pairs.Valid() && EntriesTallied(pairs.View(), entries)
    modifies pairs, pairs.Repr
    ensures pairs.Valid() && fresh(pairs.Repr - old(pairs.Repr))
    ensures EntriesTallied(pairs.View(), entries + added)
  {
    hide EntriesTallied, AddAt, IpText;
    assert entries + added[..0] == entries;
    for i := 0 to |added|
      invariant pairs.Valid() && fresh(pairs.Repr - old(pairs.Repr))
      invariant EntriesTallied(pairs.View(), entries + added[..i])
    {
      var e := added[i];
      EntryStep(pairs.View(), entries + added[..i], e);
      assert entries + added[..i] + [e] == entries + added[..i + 1];
      var src, dst := IpText(e.srcIp), IpText(e.dstIp);
      pairs.Add(PairKey(src, dst), src, dst, e.txBytes, e.rxBytes);
    }
    assert added[..|added|] == added;
  }

  lemma NextNode(nodes: Nodes, order: seq<string>, todo: set<string>, name: string)
    requires IsListing(order, nodes.Keys - todo) && todo <= nodes.Keys && name in todo
    ensures IsListing(order + [name], nodes.Keys - (todo - {name}))
    ensures EntriesOf(nodes, order + [name]) == EntriesOf(nodes, order) + nodes[name].throughput
  {
    ListingSnoc(order, nodes.Keys - todo, name);
    assert nodes.Keys - (todo - {name}) == nodes.Keys - todo + {name};
    assert (order + [name])[..|order|] == order;
  }

  lemma NoEntries()
    ensures EntriesTallied(map[], [])
  {
  }

  /** The outer loop: the nodes, in the order in which Go's map yields them. */
  method TallyNodes(nodes: Nodes) returns (pairs: ByteTable, ghost order: seq<string>)
    ensures fresh(pairs) && pairs.Valid()
    ensures IsListing(order, nodes.Keys) && EntriesTallied(pairs.View(), EntriesOf(nodes, order))
  {
    hide EntriesTallied, ByteTable.View;
    pairs := new ByteTable();
    order := [];
    var todo := nodes.Keys;
    NoEntries();
    while todo != {}
      invariant todo <= nodes.Keys
      invariant IsListing(order, nodes.Keys - todo)
      invariant fresh(pairs) && pairs.Valid() && fresh(pairs.Repr)
      invariant EntriesTallied(pairs.View(), EntriesOf(nodes, order))
    {
      var name :| name in todo;
      NextNode(nodes, order, todo, name);
      AddEntries(pairs, nodes[name].throughput, EntriesOf(nodes, order));
      order := order + [name];
      todo := todo - {name};
    }
    assert nodes.Keys - todo == nodes.Keys;
  }

  function RowFrom(pk: string, b: Bytes): TopTalker {
    TopTalker(SplitPair(pk).0, SplitPair(pk).1, b.tx, b.rx, Add64(b.tx, b.rx))
  }

  lemma RowOfCell(v: Tally, nodes: Nodes, order: seq<string>, pk: string)
    requires IsListing(order, nodes.Keys)
    requires EntriesTallied(v, EntriesOf(nodes, order)) && pk in v
    ensures RowKey(RowFrom(pk, v[pk])) == pk
    ensures TopRow(RowFrom(pk, v[pk]), nodes)
  {
    hide EntriesTallied, SplitPair, PairKey, PairTotal, IsListing;
    TotalsOf(v, nodes, order, pk);
    SplitRoundTrip(pk);
  }

  lemma RowsSnoc(rows: seq<TopTalker>, t: TopTalker)
    ensures RowKeys(rows + [t]) == RowKeys(rows) + {RowKey(t)}
  {
    hide RowKey;
  }

  ghost predicate Collected(rows: seq<TopTalker>, keys: set<string>, nodes: Nodes) {
    && RowKeys(rows) == keys && |rows| == |keys|
    && forall i :: 0 <= i < |rows| ==> TopRow(rows[i], nodes)
  }

  lemma NoRows(keys: set<string>, nodes: Nodes)
    ensures Collected([], keys - keys, nodes)
  {
    assert keys - keys == {};
  }

  lemma NextRow(v: Tally, nodes: Nodes, order: seq<string>, rows: seq<TopTalker>, todo: set<string>, pk: string)
    requires IsListing(order, nodes.Keys) && EntriesTallied(v, EntriesOf(nodes, order))
    requires todo <= v.Keys && pk in todo && Collected(rows, v.Keys - todo, nodes)
    ensures Collected(rows + [RowFrom(pk, v[pk])], v.Keys - (todo - {pk}), nodes)
  {
    hide IsListing, EntriesTallied, EntriesOf, RowFrom, RowKey, RowKeys, TopRow;
    RowOfCell(v, nodes, order, pk);
    TodoStep(v.Keys, todo, pk);
    RowsSnoc(rows, RowFrom(pk, v[pk]));
  }

  method CollectRows(pairs: ByteTable, ghost v: Tally, nodes: Nodes, ghost order: seq<string>)
    returns (rows: seq<TopTalker>)
    requires pairs.Valid() && v == pairs.View()
    requires IsListing(order, nodes.Keys) && EntriesTallied(v, EntriesOf(nodes, order))
    ensures Collected(rows, v.Keys, nodes)
  {
    hide *;
    pairs.ViewAt();
    rows := [];
    var todo := pairs.cells.Keys;
    NoRows(v.Keys, nodes);
    while todo != {}
      invariant todo <= v.Keys
      invariant Collected(rows, v.Keys - todo, nodes)
    {
      var pk :| pk in todo;
      var b := pairs.cells[pk].Value();
      assert b == v[pk];
      var row := RowFrom(pk, b);
      NextRow(v, nodes, order, rows, todo, pk);
      rows := rows + [row];
      todo := todo - {pk};
    }
    assert v.Keys - todo == v.Keys;
  }

  lemma LargestOrder()
    ensures TotalPreorder(Largest())
  {
  }

  lemma RowsSorted(rows: seq<TopTalker>, sorted: seq<TopTalker>, v: Tally, nodes: Nodes, order: seq<string>)
    requires IsListing(order, nodes.Keys) && EntriesTallied(v, EntriesOf(nodes, order))
    requires Collected(rows, v.Keys, nodes)
    requires SortedCopy(sorted, rows, Largest())
    ensures TopOf(sorted, nodes)
  {
    hide TopRow, RowKey, IsListing, BytesOf, PairsSeen, EntryKeys, EntriesOf;
    AllSeen(nodes, order);
    SameElements(sorted, rows);
    assert RowKeys(sorted) == RowKeys(rows);
    forall i | 0 <= i < |sorted| ensures TopRow(sorted[i], nodes) {
      assert sorted[i] in rows;
    }
  }

  method RankPairs(nodes: Nodes) returns (talkers: seq<TopTalker>)
    ensures TopOf(talkers, nodes)
  {
    hide *;
    ghost var order;
    var pairs;
    pairs, order := TallyNodes(nodes);
    ghost var v := pairs.View();
    var rows := CollectRows(pairs, v, nodes, order);
    LargestOrder();
    talkers := Sort(rows, Largest());
    RowsSorted(rows, talkers, v, nodes, order);
  }
}
