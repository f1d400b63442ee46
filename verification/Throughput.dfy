/** The throughput tracker: cumulative kernel counters, per-interval deltas, and two rankings. */
module Throughput {
  import opened Machine
  import opened Sums
  import opened Folds
  import opened Sorting
  import opened PairKeys
  import opened Addresses
  import opened ByteTallies
  import opened Readings

  datatype FlowKey = FlowKey(srcIp: string, dstIp: string, srcPort: u16, dstPort: u16)

  datatype CounterRow = CounterRow(id: FlowId, val: Bytes)

  type Counters = map<FlowKey, Bytes>

  function TextKey(id: FlowId): FlowKey {
    FlowKey(IpText(id.srcIp), IpText(id.dstIp), id.srcPort, id.dstPort)
  }

  /** Different connections never fall onto one text key. */
  lemma TextKeyInjective(a: FlowId, b: FlowId)
    requires |a.srcIp| == |a.dstIp| == |b.srcIp| == |b.dstIp| == 4
    requires TextKey(a) == TextKey(b)
    ensures a == b
  {
    IpTextInjective(a.srcIp, b.srcIp);
    IpTextInjective(a.dstIp, b.dstIp);
  }

  /** A row seen by Snapshot: counters never go down. */
  function RaiseTo(m: Counters, row: CounterRow): Counters {
    var k := TextKey(row.id);
    m[k := if k in m then Bytes(Max(m[k].tx, row.val.tx), Max(m[k].rx, row.val.rx)) else row.val]
  }

  /** A row seen by Watch: the last row of a key counts. */
  function Put(m: Counters, row: CounterRow): Counters {
    m[TextKey(row.id) := row.val]
  }

  function ReadAll(rows: seq<CounterRow>): Counters {
    Fold(Put, map[], rows)
  }

  /** The growth of one flow since the previous reading; a new flow counts from zero. */
  function Growth(prev: Counters, k: FlowKey, v: Bytes): Bytes {
    if k in prev then Bytes(Sub64(v.tx, prev[k].tx), Sub64(v.rx, prev[k].rx)) else v
  }

  /** The flows of an interval: those that moved any bytes. */
  function Deltas(prev: Counters, cur: Counters): Counters {
    map k | k in cur && Growth(prev, k, cur[k]) != NO_BYTES :: Growth(prev, k, cur[k])
  }

  class FlowStats {
    var txBytes: u64
    var rxBytes: u64

    constructor (tx: u64, rx: u64)
      ensures Value() == Bytes(tx, rx)
    {
      txBytes, rxBytes := tx, rx;
    }

    function Value(): Bytes
      reads this
    {
      Bytes(txBytes, rxBytes)
    }

    method Raise(val: Bytes)
      modifies this
      ensures Value() == Bytes(Max(old(txBytes), val.tx), Max(old(rxBytes), val.rx))
    {
      if val.tx > txBytes {
        txBytes := val.tx;
      }
      if val.rx > rxBytes {
        rxBytes := val.rx;
      }
    }
  }

  type StatsMap = map<FlowKey, FlowStats>

  ghost predicate Separate(m: StatsMap) {
    forall k, l :: k in m && l in m && k != l ==> m[k] != m[l]
  }

  ghost function Records(m: StatsMap): set<FlowStats> {
    set k | k in m :: m[k]
  }

  ghost function ValuesIn(m: StatsMap): Counters
    reads Records(m)
  {
    map k | k in m :: m[k].Value()
  }

  /** Files a newly allocated record under a key. */
  method PutStats(m: StatsMap, k: FlowKey, b: Bytes) returns (m': StatsMap)
    requires Separate(m)
    ensures Separate(m') && m'.Keys == m.Keys + {k}
    ensures fresh(Records(m') - Records(m))
    ensures ValuesIn(m') == ValuesIn(m)[k := b]
  {
    var stats := new FlowStats(b.tx, b.rx);
    m' := m[k := stats];
    assert Records(m') <= Records(m) + {stats};
  }

  /** Raises the record of one key; the others stay because no record is shared. */
  method RaiseStats(m: StatsMap, k: FlowKey, val: Bytes)
    requires Separate(m) && k in m
    modifies m[k]
    ensures ValuesIn(m) == old(ValuesIn(m))[k := Bytes(Max(old(m[k].txBytes), val.tx), Max(old(m[k].rxBytes), val.rx))]
  {
    var existing := m[k];
    existing.Raise(val);
  }

  /** The changed flows among the keys already compared. */
  ghost function DeltasBut(prev: Counters, cur: Counters, todo: set<FlowKey>): Counters {
    map k | k in Deltas(prev, cur) && k !in todo :: Deltas(prev, cur)[k]
  }

  lemma DeltasNext(prev: Counters, cur: Counters, todo: set<FlowKey>, k: FlowKey)
    requires k in todo && k in cur
    ensures DeltasBut(prev, cur, todo - {k}) ==
            if Growth(prev, k, cur[k]) == NO_BYTES then DeltasBut(prev, cur, todo)
            else DeltasBut(prev, cur, todo)[k := Growth(prev, k, cur[k])]
  {
  }

  lemma DeltasEnds(prev: Counters, cur: Counters)
    ensures DeltasBut(prev, cur, cur.Keys) == map[] && DeltasBut(prev, cur, {}) == Deltas(prev, cur)
  {
  }

  /** The second half of Watch: the changed flows, in records of their own. */
  method Compare(prev: StatsMap, cur: StatsMap) returns (changed: StatsMap)
    ensures Separate(changed) && fresh(Records(changed))
    ensures ValuesIn(changed) == Deltas(ValuesIn(prev), ValuesIn(cur))
  {
    hide Deltas, DeltasBut;
    changed := map[];
    var todo := cur.Keys;
    ghost var was, now := ValuesIn(prev), ValuesIn(cur);
    DeltasEnds(was, now);
    assert now.Keys == cur.Keys;
    while todo != {}
      invariant todo <= cur.Keys
      invariant Separate(changed) && fresh(Records(changed))
      invariant ValuesIn(changed) == DeltasBut(was, now, todo)
    {
      var k :| k in todo;
      DeltasNext(was, now, todo, k);
      var v := cur[k];
      assert now[k] == v.Value();
      if k in prev {
        assert was[k] == prev[k].Value();
        var tx := Sub64(v.txBytes, prev[k].txBytes);
        var rx := Sub64(v.rxBytes, prev[k].rxBytes);
        if tx > 0 || rx > 0 {
          changed := PutStats(changed, k, Bytes(tx, rx));
        }
      } else {
        if v.txBytes > 0 || v.rxBytes > 0 {
          changed := PutStats(changed, k, v.Value());
        }
      }
      todo := todo - {k};
    }
    assert was == ValuesIn(prev) && now == ValuesIn(cur);
  }

  // The two rankings.

  datatype Talker = Talker(source: string, destination: string, txBytes: u64, rxBytes: u64, totalBytes: u64)

  datatype Endpoint = Endpoint(name: string, txBytes: u64, rxBytes: u64, totalBytes: u64)

  function SourceAt(r: Resolver, k: FlowKey): string {
    r(ParseIp(k.srcIp))
  }

  function DestinationAt(r: Resolver, k: FlowKey): string {
    r(ParseIp(k.dstIp))
  }

  function PairAt(r: Resolver, k: FlowKey): string {
    PairKey(SourceAt(r, k), DestinationAt(r, k))
  }

  function SourceName(r: Resolver): FlowKey -> string {
    (k: FlowKey) => SourceAt(r, k)
  }

  function DestinationName(r: Resolver): FlowKey -> string {
    (k: FlowKey) => DestinationAt(r, k)
  }

  function PairName(r: Resolver): FlowKey -> string {
    (k: FlowKey) => PairAt(r, k)
  }

  function TxOf(c: Counters): FlowKey -> int {
    (k: FlowKey) => if k in c then c[k].tx else 0
  }

  function RxOf(c: Counters): FlowKey -> int {
    (k: FlowKey) => if k in c then c[k].rx else 0
  }

  function TalkerKey(t: Talker): string {
    PairKey(t.source, t.destination)
  }

  /** The names of a row are those of a flow, and its bytes are those of all flows of that pair. */
  ghost predicate TalkerRow(t: Talker, c: Counters, r: Resolver) {
    && (exists k :: k in c && t.source == SourceAt(r, k) && t.destination == DestinationAt(r, k))
    && TalliedAt(Bytes(t.txBytes, t.rxBytes), c.Keys, PairName(r), PairName(r), TxOf(c), RxOf(c), TalkerKey(t))
    && t.totalBytes == Add64(t.txBytes, t.rxBytes)
  }

  ghost predicate EndpointRow(e: Endpoint, c: Counters, r: Resolver) {
    && TalliedAt(Bytes(e.txBytes, e.rxBytes), c.Keys, SourceName(r), DestinationName(r), TxOf(c), RxOf(c), e.name)
    && e.totalBytes == Add64(e.txBytes, e.rxBytes)
  }

  ghost function TalkerKeys(rows: seq<Talker>): set<string> {
    set t | t in rows :: TalkerKey(t)
  }

  ghost function EndpointNames(rows: seq<Endpoint>): set<string> {
    set e | e in rows :: e.name
  }

  function LargestTalker(): (Talker, Talker) -> bool {
    (a: Talker, b: Talker) => a.totalBytes >= b.totalBytes
  }

  function LargestEndpoint(): (Endpoint, Endpoint) -> bool {
    (a: Endpoint, b: Endpoint) => a.totalBytes >= b.totalBytes
  }

  /** One row for each pair, largest total first. */
  ghost predicate TalkersOf(rows: seq<Talker>, c: Counters, r: Resolver) {
    && TalkerKeys(rows) == Names(c.Keys, PairName(r)) && |rows| == |Names(c.Keys, PairName(r))|
    && (forall i :: 0 <= i < |rows| ==> TalkerRow(rows[i], c, r))
    && Ordered(rows, LargestTalker())
  }

  /** One row for each name at either end of a flow, largest total first. */
  ghost predicate EndpointsOf(rows: seq<Endpoint>, c: Counters, r: Resolver) {
    var names := Names(c.Keys, SourceName(r)) + Names(c.Keys, DestinationName(r));
    && EndpointNames(rows) == names && |rows| == |names|
    && (forall i :: 0 <= i < |rows| ==> EndpointRow(rows[i], c, r))
    && Ordered(rows, LargestEndpoint())
  }

  /** The cells of the pair map carry the names of a flow with their key. */
  ghost predicate Labelled(pairs: map<string, ByteCell>, c: Counters, r: Resolver) {
    forall pk :: pk in pairs ==>
      && PairKey(pairs[pk].source, pairs[pk].destination) == pk
      && exists k :: k in c && pairs[pk].source == SourceAt(r, k) && pairs[pk].destination == DestinationAt(r, k)
  }

  /** The pair map after the flows in `done`, and the name map after them. */
  ghost predicate PairsTallied(v: Tally, done: set<FlowKey>, c: Counters, r: Resolver) {
    Tallied(v, done, PairName(r), PairName(r), TxOf(c), RxOf(c))
  }

  ghost predicate NamesTallied(v: Tally, done: set<FlowKey>, c: Counters, r: Resolver) {
    Tallied(v, done, SourceName(r), DestinationName(r), TxOf(c), RxOf(c))
  }

  lemma PairStep(v: Tally, done: set<FlowKey>, k: FlowKey, c: Counters, r: Resolver)
    requires PairsTallied(v, done, c, r) && k !in done && k in c
    ensures PairsTallied(AddAt(v, PairAt(r, k), c[k]), done + {k}, c, r)
  {
    TallyItem(v, done, k, PairName(r), PairName(r), TxOf(c), RxOf(c), c[k]);
    AddBoth(v, PairAt(r, k), c[k]);
  }

  lemma NameStep(v: Tally, done: set<FlowKey>, k: FlowKey, c: Counters, r: Resolver)
    requires NamesTallied(v, done, c, r) && k !in done && k in c
    ensures NamesTallied(AddItem(v, SourceAt(r, k), DestinationAt(r, k), c[k]), done + {k}, c, r)
  {
    TallyItem(v, done, k, SourceName(r), DestinationName(r), TxOf(c), RxOf(c), c[k]);
  }

  lemma NothingTallied(c: Counters, r: Resolver)
    ensures PairsTallied(map[], {}, c, r) && NamesTallied(map[], {}, c, r) && Labelled(map[], c, r)
  {
  }

  lemma LabelStep(before: map<string, ByteCell>, after: map<string, ByteCell>, k: FlowKey, c: Counters, r: Resolver)
    requires Labelled(before, c, r) && k in c
    requires after.Keys == before.Keys + {PairAt(r, k)}
    requires forall l :: l in before ==> after[l] == before[l]
    requires PairAt(r, k) !in before ==>
               after[PairAt(r, k)].source == SourceAt(r, k) && after[PairAt(r, k)].destination == DestinationAt(r, k)
    ensures Labelled(after, c, r)
  {
  }

  /** One turn of the loop of TopTalkers. */
  method AddTalker(pairs: ByteTable, key: FlowKey, b: Bytes, r: Resolver,
                   ghost done: set<FlowKey>, ghost c: Counters)
    requires pairs.Valid() && Labelled(pairs.cells, c, r) && PairsTallied(pairs.View(), done, c, r)
    requires key in c && c[key] == b && key !in done
    modifies pairs, pairs.Repr
    ensures pairs.Valid() && fresh(pairs.Repr - old(pairs.Repr))
    ensures Labelled(pairs.cells, c, r) && PairsTallied(pairs.View(), done + {key}, c, r)
  {
    hide PairsTallied, AddAt, Labelled;
    PairStep(pairs.View(), done, key, c, r);
    ghost var before := pairs.cells;
    var src := r(ParseIp(key.srcIp));
    var dst := r(ParseIp(key.dstIp));
    pairs.Add(PairKey(src, dst), src, dst, b.tx, b.rx);
    LabelStep(before, pairs.cells, key, c, r);
  }

  method GroupByPair(flows: StatsMap, r: Resolver, ghost c: Counters) returns (pairs: ByteTable)
    requires c.Keys == flows.Keys && forall k :: k in c ==> c[k] == flows[k].Value()
    ensures fresh(pairs) && pairs.Valid() && fresh(pairs.Repr)
    ensures PairsTallied(pairs.View(), c.Keys, c, r)
    ensures Labelled(pairs.cells, c, r)
  {
    hide *;
    pairs := new ByteTable();
    var todo := flows.Keys;
    NothingTallied(c, r);
    assert c.Keys - todo == {};
    while todo != {}
      invariant todo <= c.Keys
      invariant fresh(pairs) && pairs.Valid() && fresh(pairs.Repr)
      invariant PairsTallied(pairs.View(), c.Keys - todo, c, r) && Labelled(pairs.cells, c, r)
    {
      var key :| key in todo;
      assert c[key] == flows[key].Value();
      TodoStep(c.Keys, todo, key);
      AddTalker(pairs, key, flows[key].Value(), r, c.Keys - todo, c);
      todo := todo - {key};
    }
    assert c.Keys - todo == c.Keys;
  }

  /** One turn of the loop of TopEndpoints. */
  method AddEndpoints(names: ByteTable, key: FlowKey, b: Bytes, r: Resolver,
                      ghost done: set<FlowKey>, ghost c: Counters)
    requires names.Valid() && NamesTallied(names.View(), done, c, r)
    requires key in c && c[key] == b && key !in done
    modifies names, names.Repr
    ensures names.Valid() && fresh(names.Repr - old(names.Repr))
    ensures NamesTallied(names.View(), done + {key}, c, r)
  {
    hide NamesTallied, AddAt;
    NameStep(names.View(), done, key, c, r);
    var src := r(ParseIp(key.srcIp));
    var dst := r(ParseIp(key.dstIp));
    names.Add(src, src, "", b.tx, 0);
    names.Add(dst, dst, "", 0, b.rx);
  }

  method GroupByName(flows: StatsMap, r: Resolver, ghost c: Counters) returns (names: ByteTable)
    requires c.Keys == flows.Keys && forall k :: k in c ==> c[k] == flows[k].Value()
    ensures fresh(names) && names.Valid() && fresh(names.Repr)
    ensures NamesTallied(names.View(), c.Keys, c, r)
  {
    hide *;
    names := new ByteTable();
    var todo := flows.Keys;
    NothingTallied(c, r);
    assert c.Keys - todo == {};
    while todo != {}
      invariant todo <= c.Keys
      invariant fresh(names) && names.Valid() && fresh(names.Repr)
      invariant NamesTallied(names.View(), c.Keys - todo, c, r)
    {
      var key :| key in todo;
      assert c[key] == flows[key].Value();
      TodoStep(c.Keys, todo, key);
      AddEndpoints(names, key, flows[key].Value(), r, c.Keys - todo, c);
      todo := todo - {key};
    }
    assert c.Keys - todo == c.Keys;
  }

  function TalkerFrom(source: string, destination: string, b: Bytes): Talker {
    Talker(source, destination, b.tx, b.rx, Add64(b.tx, b.rx))
  }

  lemma TalkerFromCell(v: Tally, cells: map<string, ByteCell>, pk: string, c: Counters, r: Resolver)
    requires PairsTallied(v, c.Keys, c, r) && Labelled(cells, c, r)
    requires pk in v && pk in cells
    ensures TalkerRow(TalkerFrom(cells[pk].source, cells[pk].destination, v[pk]), c, r)
    ensures TalkerKey(TalkerFrom(cells[pk].source, cells[pk].destination, v[pk])) == pk
  {
  }

  lemma StartCollecting(keys: set<string>)
    ensures TalkerKeys([]) == {} == EndpointNames([])
    ensures keys - keys == {} && keys - {} == keys
  {
  }

  lemma TalkerKeysSnoc(rows: seq<Talker>, row: Talker)
    ensures TalkerKeys(rows + [row]) == TalkerKeys(rows) + {TalkerKey(row)}
  {
  }

  lemma EndpointNamesSnoc(rows: seq<Endpoint>, row: Endpoint)
    ensures EndpointNames(rows + [row]) == EndpointNames(rows) + {row.name}
  {
  }

  method CollectTalkers(pairs: ByteTable, ghost v: Tally, ghost c: Counters, r: Resolver)
    returns (result: seq<Talker>)
    requires pairs.Valid() && v == pairs.View() && PairsTallied(v, c.Keys, c, r) && Labelled(pairs.cells, c, r)
    ensures TalkerKeys(result) == v.Keys && |result| == |v.Keys|
    ensures forall i :: 0 <= i < |result| ==> TalkerRow(result[i], c, r)
  {
    hide *;
    pairs.ViewAt();
    result := [];
    var todo := pairs.cells.Keys;
    StartCollecting(v.Keys);
    while todo != {}
      invariant todo <= v.Keys
      invariant TalkerKeys(result) == v.Keys - todo && |result| == |v.Keys - todo|
      invariant forall i :: 0 <= i < |result| ==> TalkerRow(result[i], c, r)
    {
      var pk :| pk in todo;
      var cell := pairs.cells[pk];
      var row := TalkerFrom(cell.source, cell.destination, cell.Value());
      TalkerFromCell(v, pairs.cells, pk, c, r);
      TodoStep(v.Keys, todo, pk);
      TalkerKeysSnoc(result, row);
      result := result + [row];
      todo := todo - {pk};
    }
  }

  lemma TalkersSorted(rows: seq<Talker>, sorted: seq<Talker>, v: Tally, c: Counters, r: Resolver)
    requires PairsTallied(v, c.Keys, c, r)
    requires TalkerKeys(rows) == v.Keys && |rows| == |v.Keys|
    requires forall i :: 0 <= i < |rows| ==> TalkerRow(rows[i], c, r)
    requires SortedCopy(sorted, rows, LargestTalker())
    ensures TalkersOf(sorted, c, r)
  {
    hide TalkerRow, TalliedAt;
    SameElements(sorted, rows);
    assert TalkerKeys(sorted) == TalkerKeys(rows);
    forall i | 0 <= i < |sorted| ensures TalkerRow(sorted[i], c, r) {
      assert sorted[i] in rows;
    }
    assert v.Keys == Names(c.Keys, PairName(r));
  }

  lemma EndpointsSorted(rows: seq<Endpoint>, sorted: seq<Endpoint>, v: Tally, c: Counters, r: Resolver)
    requires NamesTallied(v, c.Keys, c, r)
    requires EndpointNames(rows) == v.Keys && |rows| == |v.Keys|
    requires forall i :: 0 <= i < |rows| ==> EndpointRow(rows[i], c, r)
    requires SortedCopy(sorted, rows, LargestEndpoint())
    ensures EndpointsOf(sorted, c, r)
  {
    hide EndpointRow, TalliedAt;
    SameElements(sorted, rows);
    assert EndpointNames(sorted) == EndpointNames(rows);
    forall i | 0 <= i < |sorted| ensures EndpointRow(sorted[i], c, r) {
      assert sorted[i] in rows;
    }
  }

  function EndpointFrom(name: string, b: Bytes): (e: Endpoint)
    ensures e.name == name
  {
    Endpoint(name, b.tx, b.rx, Add64(b.tx, b.rx))
  }

  lemma EndpointFromCell(v: Tally, name: string, c: Counters, r: Resolver)
    requires NamesTallied(v, c.Keys, c, r) && name in v
    ensures EndpointRow(EndpointFrom(name, v[name]), c, r)
  {
  }

  method CollectEndpoints(names: ByteTable, ghost v: Tally, ghost c: Counters, r: Resolver)
    returns (result: seq<Endpoint>)
    requires names.Valid() && v == names.View() && NamesTallied(v, c.Keys, c, r)
    ensures EndpointNames(result) == v.Keys && |result| == |v.Keys|
    ensures forall i :: 0 <= i < |result| ==> EndpointRow(result[i], c, r)
  {
    hide *;
    names.ViewAt();
    result := [];
    var todo := names.cells.Keys;
    StartCollecting(v.Keys);
    while todo != {}
      invariant todo <= v.Keys
      invariant EndpointNames(result) == v.Keys - todo && |result| == |v.Keys - todo|
      invariant forall i :: 0 <= i < |result| ==> EndpointRow(result[i], c, r)
    {
      var name :| name in todo;
      var cell := names.cells[name];
      var row := EndpointFrom(name, cell.Value());
      EndpointFromCell(v, name, c, r);
      TodoStep(v.Keys, todo, name);
      EndpointNamesSnoc(result, row);
      result := result + [row];
      todo := todo - {name};
    }
  }

  lemma RankingOrders()
    ensures TotalPreorder(LargestTalker()) && TotalPreorder(LargestEndpoint())
  {
  }

  class Tracker {
    var flows: StatsMap
    var prev: StatsMap

    /** No two flows share a record, and the baseline shares none with the displayed flows. */
    ghost predicate Valid()
      reads this
    {
      Separate(flows) && Separate(prev) && Records(flows) !! Records(prev)
    }

    constructor ()
      ensures Valid() && ValuesIn(flows) == map[] && ValuesIn(prev) == map[]
    {
      flows, prev := map[], map[];
    }

    /** Rows take effect one by one, so those seen before an error stay; the baseline is untouched. */
    method Snapshot(reading: Reading<CounterRow>) returns (ok: bool)
      requires Valid()
      modifies `flows, Records(flows)
      ensures Valid() && ok == reading.ok
      ensures ValuesIn(flows) == Fold(RaiseTo, old(ValuesIn(flows)), reading.rows)
      ensures ValuesIn(prev) == old(ValuesIn(prev))
    {
      ghost var shown, base := ValuesIn(flows), ValuesIn(prev);
      for i := 0 to |reading.rows|
        modifies `flows, Records(flows)
        invariant Valid() && fresh(Records(flows) - old(Records(flows)))
        invariant ValuesIn(flows) == Fold(RaiseTo, shown, reading.rows[..i])
        invariant ValuesIn(prev) == base
      {
        Raise(reading.rows[i]);
        FoldNext(RaiseTo, shown, reading.rows, i);
      }
      assert reading.rows[..|reading.rows|] == reading.rows;
      return reading.ok;
    }

    method Raise(row: CounterRow)
      requires Valid()
      modifies `flows, Records(flows)
      ensures Valid() && fresh(Records(flows) - old(Records(flows)))
      ensures ValuesIn(flows) == RaiseTo(old(ValuesIn(flows)), row)
      ensures ValuesIn(prev) == old(ValuesIn(prev))
    {
      var fk := TextKey(row.id);
      if fk in flows {
        RaiseStats(flows, fk, row.val);
      } else {
        flows := PutStats(flows, fk, row.val);
      }
    }

    /** A failed reading changes nothing; a successful one replaces both maps by new records. */
    method Watch(reading: Reading<CounterRow>) returns (ok: bool)
      requires Valid()
      modifies this
      ensures Valid() && ok == reading.ok
      ensures !ok ==> flows == old(flows) && prev == old(prev)
      ensures ok ==> fresh(Records(flows)) && fresh(Records(prev))
      ensures ok ==> ValuesIn(prev) == ReadAll(reading.rows)
      ensures ok ==> ValuesIn(flows) == Deltas(old(ValuesIn(prev)), ReadAll(reading.rows))
    {
      hide Deltas, ReadAll, ValuesIn, Separate;
      ghost var base := ValuesIn(prev);
      var cur := ReadCurrent(reading.rows);
      if !reading.ok {
        return false;
      }
      assert ValuesIn(prev) == base;
      var changed := Compare(prev, cur);
      assert Records(changed) !! Records(cur);
      assert ValuesIn(changed) == Deltas(base, ReadAll(reading.rows));
      flows := changed;
      prev := cur;
      return true;
    }

    method ReadCurrent(rows: seq<CounterRow>) returns (cur: StatsMap)
      ensures Separate(cur) && fresh(Records(cur))
      ensures ValuesIn(cur) == ReadAll(rows)
    {
      cur := map[];
      for i := 0 to |rows|
        invariant Separate(cur) && fresh(Records(cur))
        invariant ValuesIn(cur) == ReadAll(rows[..i])
      {
        FoldNext(Put, map[], rows, i);
        cur := PutStats(cur, TextKey(rows[i].id), rows[i].val);
      }
      assert rows[..|rows|] == rows;
    }

    method TopTalkers(r: Resolver) returns (result: seq<Talker>)
      ensures TalkersOf(result, ValuesIn(flows), r)
    {
      hide PairsTallied, Labelled, TalkerRow, TalkersOf, TotalPreorder, SortedCopy;
      ghost var c := ValuesIn(flows);
      var pairs := GroupByPair(flows, r, c);
      ghost var v := pairs.View();
      var rows := CollectTalkers(pairs, v, c, r);
      RankingOrders();
      result := Sort(rows, LargestTalker());
      TalkersSorted(rows, result, v, c, r);
      assert ValuesIn(flows) == c;
    }

    method TopEndpoints(r: Resolver) returns (result: seq<Endpoint>)
      ensures EndpointsOf(result, ValuesIn(flows), r)
    {
      hide NamesTallied, EndpointRow, EndpointsOf, TotalPreorder, SortedCopy;
      ghost var c := ValuesIn(flows);
      var names := GroupByName(flows, r, c);
      ghost var v := names.View();
      var rows := CollectEndpoints(names, v, c, r);
      RankingOrders();
      result := Sort(rows, LargestEndpoint());
      EndpointsSorted(rows, result, v, c, r);
      assert ValuesIn(flows) == c;
    }
  }
}
