/** Whole runs of the throughput tracker, and how its two rankings fit together. */
module ThroughputRuns {
  import opened Machine
  import opened Sums
  import opened Folds
  import opened PairKeys
  import opened Addresses
  import opened ByteTallies
  import opened Readings
  import opened Throughput

  datatype State = State(flows: Counters, prev: Counters)

  datatype Call = WatchCall(reading: Reading<CounterRow>) | SnapshotCall(reading: Reading<CounterRow>)

  /** The effect of one call on the two maps, as Tracker.Watch and Tracker.Snapshot state it. */
  function Apply(s: State, call: Call): State {
    match call
    case WatchCall(reading) =>
      if !reading.ok then s else State(Deltas(s.prev, ReadAll(reading.rows)), ReadAll(reading.rows))
    case SnapshotCall(reading) =>
      State(Fold(RaiseTo, s.flows, reading.rows), s.prev)
  }

  function Run(calls: seq<Call>): State {
    Fold(Apply, State(map[], map[]), calls)
  }

  /** The tracker's methods perform exactly these steps. */
  method Perform(t: Tracker, call: Call) returns (ok: bool)
    requires t.Valid()
    modifies t, Records(t.flows)
    ensures t.Valid() && ok == call.reading.ok
    ensures State(ValuesIn(t.flows), ValuesIn(t.prev)) ==
            Apply(old(State(ValuesIn(t.flows), ValuesIn(t.prev))), call)
  {
    hide Separate, Deltas, ReadAll;
    ghost var before := State(ValuesIn(t.flows), ValuesIn(t.prev));
    match call {
      case WatchCall(reading) =>
        ok := t.Watch(reading);
        assert !ok ==> State(ValuesIn(t.flows), ValuesIn(t.prev)) == before;
      case SnapshotCall(reading) =>
        ok := t.Snapshot(reading);
    }
  }

  /** Snapshots are insensitive to the order of the rows and to seeing a row again. */
  lemma SnapshotIsOrderless(m: Counters, rows: seq<CounterRow>, rows': seq<CounterRow>)
    requires multiset(rows) == multiset(rows')
    ensures Fold(RaiseTo, m, rows) == Fold(RaiseTo, m, rows')
  {
    forall a, x, y ensures RaiseTo(RaiseTo(a, x), y) == RaiseTo(RaiseTo(a, y), x) {
      RaisesCommute(a, x, y);
    }
    FoldPermutes(RaiseTo, m, rows, rows');
  }

  lemma RaisesCommute(a: Counters, x: CounterRow, y: CounterRow)
    ensures RaiseTo(RaiseTo(a, x), y) == RaiseTo(RaiseTo(a, y), x)
    ensures RaiseTo(RaiseTo(a, x), x) == RaiseTo(a, x)
  {
    hide IpText;
    assert RaiseTo(RaiseTo(a, x), y).Keys == RaiseTo(RaiseTo(a, y), x).Keys;
  }

  function Get(c: Counters, k: FlowKey, d: Direction): u64 {
    if k !in c then 0 else if d.Transmitted? then c[k].tx else c[k].rx
  }

  /** The rows of one flow. */
  ghost predicate IsRowOf(row: CounterRow, k: FlowKey) {
    TextKey(row.id) == k
  }

  function RowBytesOf(row: CounterRow, d: Direction): u64 {
    if d.Transmitted? then row.val.tx else row.val.rx
  }

  /** Snapshots hold the maxima: a flow is there if it was before or has a row, and each direction is
      the largest of the earlier value and the rows' values. */
  lemma {:induction false} SnapshotHoldsMaxima(m: Counters, rows: seq<CounterRow>, k: FlowKey, d: Direction)
    ensures k in Fold(RaiseTo, m, rows) <==> k in m || exists i :: 0 <= i < |rows| && IsRowOf(rows[i], k)
    ensures Get(Fold(RaiseTo, m, rows), k, d) >= Get(m, k, d)
    ensures forall i :: 0 <= i < |rows| && IsRowOf(rows[i], k) ==>
              Get(Fold(RaiseTo, m, rows), k, d) >= RowBytesOf(rows[i], d)
    ensures || Get(Fold(RaiseTo, m, rows), k, d) == Get(m, k, d)
            || exists i :: && 0 <= i < |rows| && IsRowOf(rows[i], k)
                           && Get(Fold(RaiseTo, m, rows), k, d) == RowBytesOf(rows[i], d)
    decreases |rows|
  {
    hide TextKey;
    if rows != [] {
      var n := |rows| - 1;
      SnapshotHoldsMaxima(m, rows[..n], k, d);
      assert forall i :: 0 <= i < n ==> rows[..n][i] == rows[i];
      if IsRowOf(rows[n], k) {
        assert Fold(RaiseTo, m, rows) == RaiseTo(Fold(RaiseTo, m, rows[..n]), rows[n]);
      }
    }
  }

  /** The flow is displayed with at least these bytes. */
  predicate Covered(m: Counters, row: CounterRow) {
    && TextKey(row.id) in m
    && row.val.tx <= m[TextKey(row.id)].tx && row.val.rx <= m[TextKey(row.id)].rx
  }

  /** A snapshot, failed or not, leaves everything as it was if and only if each row it saw was
      covered before. */
  lemma SnapshotUnchangedIff(s: State, reading: Reading<CounterRow>)
    ensures Apply(s, SnapshotCall(reading)) == s <==>
            forall i :: 0 <= i < |reading.rows| ==> Covered(s.flows, reading.rows[i])
  {
    hide TextKey, RaiseTo;
    var m, rows := s.flows, reading.rows;
    if Fold(RaiseTo, m, rows) == m {
      forall i | 0 <= i < |rows| ensures Covered(m, rows[i]) {
        SnapshotHoldsMaxima(m, rows, TextKey(rows[i].id), Transmitted);
        SnapshotHoldsMaxima(m, rows, TextKey(rows[i].id), Received);
        assert IsRowOf(rows[i], TextKey(rows[i].id));
      }
    }
    if forall i :: 0 <= i < |rows| ==> Covered(m, rows[i]) {
      CoveredRows(m, rows);
    }
  }

  lemma {:induction false} CoveredRows(m: Counters, rows: seq<CounterRow>)
    requires forall i :: 0 <= i < |rows| ==> Covered(m, rows[i])
    ensures Fold(RaiseTo, m, rows) == m
  {
    hide TextKey;
    if rows != [] {
      var n := |rows| - 1;
      CoveredRows(m, rows[..n]);
      assert Covered(m, rows[n]);
      assert RaiseTo(m, rows[n]) == m;
    }
  }

  /** A first reading that fails after one row: Snapshot displays the row, Watch nothing. */
  lemma FailedSnapshotKeepsRow(row: CounterRow)
    ensures
      var reading := Reading([row], false);
      && Run([SnapshotCall(reading)]).flows == map[TextKey(row.id) := row.val]
      && Run([WatchCall(reading)]).flows == map[]
  {
    hide TextKey;
    var reading := Reading([row], false);
    var start := State(map[], map[]);
    FoldNext(RaiseTo, start.flows, [row], 0);
    FoldNext(Apply, start, [SnapshotCall(reading)], 0);
    FoldNext(Apply, start, [WatchCall(reading)], 0);
    assert forall call: Call :: [call][..1] == [call];
    assert [row][..1] == [row];
  }

  // Telescoping.

  ghost predicate Reads(call: Call) {
    call.WatchCall? && call.reading.ok
  }

  /** The sum of the deltas shown for a flow by the successful Watch calls of a run. */
  ghost function Emitted(calls: seq<Call>, k: FlowKey, d: Direction): nat {
    if calls == [] then 0 else
      var init, last := calls[..|calls| - 1], calls[|calls| - 1];
      Emitted(init, k, d) + (if Reads(last) then Get(Run(calls).flows, k, d) else 0)
  }

  /** The last counters of the finished stretches: those of readings after which the flow was
      missing from the next successful reading. */
  ghost function Finished(calls: seq<Call>, k: FlowKey, d: Direction): nat {
    if calls == [] then 0 else
      var init, last := calls[..|calls| - 1], calls[|calls| - 1];
      Finished(init, k, d) +
      (if Reads(last) && k !in ReadAll(last.reading.rows) then Get(Run(init).prev, k, d) else 0)
  }

  /** How often a counter was seen to go down within a stretch. */
  ghost function Drops(calls: seq<Call>, k: FlowKey, d: Direction): nat {
    if calls == [] then 0 else
      var init, last := calls[..|calls| - 1], calls[|calls| - 1];
      Drops(init, k, d) +
      (if Reads(last) && k in ReadAll(last.reading.rows)
          && Get(ReadAll(last.reading.rows), k, d) < Get(Run(init).prev, k, d) then 1 else 0)
  }

  lemma DeltaAt(prev: Counters, cur: Counters, k: FlowKey, d: Direction)
    ensures Get(Deltas(prev, cur), k, d) ==
            if k in cur then Sub64(Get(cur, k, d), Get(prev, k, d)) else 0
  {
  }

  /** Main result, for every run of Watch and Snapshot calls, every flow and direction: the deltas
      shown add up to the last counters of all stretches, plus 2^64 for every time a counter went
      down. Failed readings and interposed snapshots change none of it. */
  lemma {:induction false} WatchTelescopes(calls: seq<Call>, k: FlowKey, d: Direction)
    ensures Emitted(calls, k, d) ==
            Finished(calls, k, d) + Get(Run(calls).prev, k, d) + TWO64 * Drops(calls, k, d)
    decreases |calls|
  {
    if calls != [] {
      var init, last := calls[..|calls| - 1], calls[|calls| - 1];
      WatchTelescopes(init, k, d);
      if Reads(last) {
        DeltaAt(Run(init).prev, ReadAll(last.reading.rows), k, d);
      }
    }
  }

  /** One stretch, wherever in a run it begins: over readings that all contain the flow, the first of
      them without a baseline for it, the shown deltas add up to the last counter modulo 2^64, and
      exactly so if and only if the counter never went down. */
  lemma StretchTelescopes(before: seq<Call>, stretch: seq<Call>, k: FlowKey, d: Direction)
    requires k !in Run(before).prev
    requires AlwaysRead(stretch, k)
    ensures
      var shown := Emitted(before + stretch, k, d) - Emitted(before, k, d);
      var last := Get(Run(before + stretch).prev, k, d);
      && Wrap64(shown) == last
      && (shown == last <==> Drops(before + stretch, k, d) == Drops(before, k, d))
  {
    hide *;
    WatchTelescopes(before, k, d);
    WatchTelescopes(before + stretch, k, d);
    NothingFinished(before, stretch, k, d);
    NoBaseline(Run(before).prev, k, d);
    WholeWords(Finished(before, k, d), Get(Run(before + stretch).prev, k, d),
               Drops(before, k, d), Drops(before + stretch, k, d));
  }

  lemma WholeWords(base: int, last: u64, m: nat, n: nat)
    requires m <= n
    ensures
      var shown := (base + last + TWO64 * n) - (base + TWO64 * m);
      Wrap64(shown) == last && (shown == last <==> n == m)
  {
    WrapMultiple64(last, n - m);
  }

  /** Each successful reading contains the flow. */
  ghost predicate AlwaysRead(calls: seq<Call>, k: FlowKey) {
    forall i :: 0 <= i < |calls| && Reads(calls[i]) ==> k in ReadAll(calls[i].reading.rows)
  }

  lemma NoBaseline(c: Counters, k: FlowKey, d: Direction)
    requires k !in c
    ensures Get(c, k, d) == 0
  {
  }

  lemma {:induction false} NothingFinished(before: seq<Call>, stretch: seq<Call>, k: FlowKey, d: Direction)
    requires AlwaysRead(stretch, k)
    ensures Finished(before + stretch, k, d) == Finished(before, k, d)
    ensures Drops(before + stretch, k, d) >= Drops(before, k, d)
    decreases |stretch|
  {
    hide Run, ReadAll, Get;
    if stretch == [] {
      assert before + stretch == before;
    } else {
      var n := |stretch| - 1;
      assert (before + stretch)[..|before| + n] == before + stretch[..n];
      NothingFinished(before, stretch[..n], k, d);
    }
  }

  // Readings, in terms of the rows themselves.

  /** A reading holds the bytes of the last row of each flow, and no other flow. */
  lemma {:induction false} ReadHoldsLastRow(rows: seq<CounterRow>, i: nat)
    requires i < |rows| && forall j :: i < j < |rows| ==> TextKey(rows[j].id) != TextKey(rows[i].id)
    ensures TextKey(rows[i].id) in ReadAll(rows)
    ensures ReadAll(rows)[TextKey(rows[i].id)].tx == rows[i].val.tx
    ensures ReadAll(rows)[TextKey(rows[i].id)].rx == rows[i].val.rx
    decreases |rows|
  {
    hide TextKey;
    var n := |rows| - 1;
    if i < n {
      assert TextKey(rows[n].id) != TextKey(rows[i].id);
      ReadHoldsLastRow(rows[..n], i);
    }
  }

  /** A successful Watch displays exactly the flows whose bytes differ from the previous reading's; a
      flow that was not read before counts from zero. */
  lemma WatchShowsChanges(s: State, reading: Reading<CounterRow>, k: FlowKey)
    requires reading.ok
    ensures
      var cur := ReadAll(reading.rows);
      var shown := Apply(s, WatchCall(reading)).flows;
      k in shown <==>
        k in cur && if k in s.prev then cur[k] != s.prev[k] else cur[k].tx > 0 || cur[k].rx > 0
  {
    hide ReadAll;
  }

  /** The telescoping sum against the row itself: over a stretch that ends with a successful reading,
      the shown bytes of a direction add up to those of the flow's last row in that reading. */
  lemma StretchEndsAtRow(before: seq<Call>, stretch: seq<Call>, i: nat, d: Direction)
    requires stretch != [] && Reads(stretch[|stretch| - 1])
    requires
      var rows := stretch[|stretch| - 1].reading.rows;
      && i < |rows| && (forall j :: i < j < |rows| ==> TextKey(rows[j].id) != TextKey(rows[i].id))
      && TextKey(rows[i].id) !in Run(before).prev && AlwaysRead(stretch, TextKey(rows[i].id))
    ensures
      var row := stretch[|stretch| - 1].reading.rows[i];
      var k, bytes := TextKey(row.id), if d.Transmitted? then row.val.tx else row.val.rx;
      var shown := Emitted(before + stretch, k, d) - Emitted(before, k, d);
      && Wrap64(shown) == bytes
      && (shown == bytes <==> Drops(before + stretch, k, d) == Drops(before, k, d))
  {
    hide TextKey, Emitted, Drops, ReadAll, Wrap64;
    var rows := stretch[|stretch| - 1].reading.rows;
    var calls := before + stretch;
    StretchTelescopes(before, stretch, TextKey(rows[i].id), d);
    ReadHoldsLastRow(rows, i);
    assert calls[|calls| - 1] == stretch[|stretch| - 1];
  }

  // The connections behind the flows.

  /** The run has seen a row of this connection. */
  ghost predicate Seen(calls: seq<Call>, id: FlowId) {
    exists i, j :: 0 <= i < |calls| && 0 <= j < |calls[i].reading.rows| && calls[i].reading.rows[j].id == id
  }

  lemma {:induction false} ReadFromRow(rows: seq<CounterRow>, k: FlowKey) returns (j: nat)
    requires k in ReadAll(rows)
    ensures j < |rows| && TextKey(rows[j].id) == k
  {
    hide TextKey;
    j := |rows| - 1;
    if TextKey(rows[j].id) != k {
      j := ReadFromRow(rows[..j], k);
    }
  }

  lemma {:induction false} RaisedFromRow(m: Counters, rows: seq<CounterRow>, k: FlowKey) returns (j: nat)
    requires k in Fold(RaiseTo, m, rows) && k !in m
    ensures j < |rows| && TextKey(rows[j].id) == k
  {
    hide TextKey;
    j := |rows| - 1;
    if TextKey(rows[j].id) != k {
      j := RaisedFromRow(m, rows[..j], k);
    }
  }

  lemma {:induction false} FlowWasSeen(calls: seq<Call>, k: FlowKey) returns (id: FlowId)
    requires k in Run(calls).flows
    ensures Seen(calls, id) && TextKey(id) == k
    decreases |calls|
  {
    hide TextKey, RaiseTo, ReadAll;
    var n := |calls| - 1;
    var before, last := Run(calls[..n]), calls[n];
    if last.SnapshotCall? && k !in before.flows {
      var j := RaisedFromRow(before.flows, last.reading.rows, k);
      id := last.reading.rows[j].id;
    } else if Reads(last) {
      var j := ReadFromRow(last.reading.rows, k);
      id := last.reading.rows[j].id;
    } else {
      id := FlowWasSeen(calls[..n], k);
      var i, j :| 0 <= i < n && 0 <= j < |calls[i].reading.rows| && calls[i].reading.rows[j].id == id;
    }
  }

  /** All addresses have four bytes, as in the kernel's keys. */
  ghost predicate FourBytes(calls: seq<Call>) {
    forall id :: Seen(calls, id) ==> |id.srcIp| == |id.dstIp| == 4
  }

  /** Behind each displayed flow stands one connection only: the detour through texts mixes none up,
      and the names of the flow are those of the connection's own addresses. */
  lemma FlowIsOneConnection(calls: seq<Call>, k: FlowKey, r: Resolver) returns (id: FlowId)
    requires FourBytes(calls) && k in Run(calls).flows
    ensures Seen(calls, id) && TextKey(id) == k
    ensures forall other :: Seen(calls, other) && TextKey(other) == k ==> other == id
    ensures SourceAt(r, k) == r(id.srcIp) && DestinationAt(r, k) == r(id.dstIp)
    ensures k.srcPort == id.srcPort && k.dstPort == id.dstPort
  {
    hide Run, IpText, ParseIp, Seen;
    id := FlowWasSeen(calls, k);
    forall other | Seen(calls, other) && TextKey(other) == k ensures other == id {
      TextKeyInjective(other, id);
    }
    ParseIpRoundTrip(id.srcIp);
    ParseIpRoundTrip(id.dstIp);
  }

  /** The names in a ranking are the answers for the addresses of a connection that was seen. */
  lemma TalkersAreResolved(calls: seq<Call>, rows: seq<Talker>, t: Talker, r: Resolver) returns (id: FlowId)
    requires FourBytes(calls)
    requires TalkersOf(rows, Run(calls).flows, r) && t in rows
    ensures Seen(calls, id) && TextKey(id) in Run(calls).flows
    ensures t.source == r(id.srcIp) && t.destination == r(id.dstIp)
  {
    hide Run, Seen, SourceAt, DestinationAt, TalliedAt;
    var c := Run(calls).flows;
    assert TalkerRow(t, c, r);
    var k :| k in c && t.source == SourceAt(r, k) && t.destination == DestinationAt(r, k);
    id := FlowIsOneConnection(calls, k, r);
  }

  // The rankings, in terms of the flows themselves.

  /** A row of TopTalkers shows, modulo 2^64, the bytes of the flows from its source to its destination. */
  lemma TalkerAddsUp(rows: seq<Talker>, t: Talker, c: Counters, r: Resolver)
    requires TalkersOf(rows, c, r) && t in rows && PlainSources(c, r)
    ensures
      var flows := set k | k in c && r(ParseIp(k.srcIp)) == t.source && r(ParseIp(k.dstIp)) == t.destination;
      && flows != {}
      && t.txBytes == Wrap64(SumSet(flows, k => if k in c then c[k].tx else 0))
      && t.rxBytes == Wrap64(SumSet(flows, k => if k in c then c[k].rx else 0))
      && t.totalBytes == Wrap64(t.txBytes + t.rxBytes)
  {
    hide ParseIp, SumSet, PairKey, Wrap64;
    assert TalkerRow(t, c, r);
    var flows := set k | k in c && r(ParseIp(k.srcIp)) == t.source && r(ParseIp(k.dstIp)) == t.destination;
    forall k | k in c
      ensures PairAt(r, k) == TalkerKey(t) <==> SourceAt(r, k) == t.source && DestinationAt(r, k) == t.destination
    {
      if PairAt(r, k) == TalkerKey(t) {
        PlainTalker(t, c, r);
        PairKeyInjective(SourceAt(r, k), DestinationAt(r, k), t.source, t.destination);
      }
    }
    assert Class(c.Keys, PairName(r), TalkerKey(t)) == flows;
    var k :| k in c && t.source == SourceAt(r, k) && t.destination == DestinationAt(r, k);
    assert k in flows;
    SumCongruent(flows, TxOf(c), k => if k in c then c[k].tx else 0);
    SumCongruent(flows, RxOf(c), k => if k in c then c[k].rx else 0);
    AddIsWrap(t.txBytes, t.rxBytes);
  }

  lemma AddIsWrap(a: u64, b: u64)
    ensures Add64(a, b) == Wrap64(a + b)
  {
    WrapSmall64(a);
    WrapSmall64(b);
    WrapAdd64(a, b);
  }

  lemma PlainTalker(t: Talker, c: Counters, r: Resolver)
    requires TalkerRow(t, c, r) && PlainSources(c, r)
    ensures NUL !in t.source
  {
  }

  lemma EndpointHasFlow(rows: seq<Endpoint>, e: Endpoint, c: Counters, r: Resolver) returns (k: FlowKey)
    requires EndpointsOf(rows, c, r) && e in rows
    ensures EndpointRow(e, c, r)
    ensures k in c && (SourceAt(r, k) == e.name || DestinationAt(r, k) == e.name)
  {
    hide EndpointRow, SourceAt, DestinationAt;
    assert e.name in EndpointNames(rows);
    if e.name in Names(c.Keys, SourceName(r)) {
      k :| k in c.Keys && SourceName(r)(k) == e.name;
    } else {
      k :| k in c.Keys && DestinationName(r)(k) == e.name;
    }
  }

  /** A row of TopEndpoints shows, modulo 2^64, the bytes sent by the flows from its name and received
      by the flows to it. */
  lemma EndpointAddsUp(rows: seq<Endpoint>, e: Endpoint, c: Counters, r: Resolver)
    requires EndpointsOf(rows, c, r) && e in rows
    ensures
      var sent := set k | k in c && r(ParseIp(k.srcIp)) == e.name;
      var received := set k | k in c && r(ParseIp(k.dstIp)) == e.name;
      && sent + received != {}
      && e.txBytes == Wrap64(SumSet(sent, k => if k in c then c[k].tx else 0))
      && e.rxBytes == Wrap64(SumSet(received, k => if k in c then c[k].rx else 0))
      && e.totalBytes == Wrap64(e.txBytes + e.rxBytes)
  {
    hide ParseIp, SumSet, Wrap64, EndpointsOf;
    var sent := set k | k in c && r(ParseIp(k.srcIp)) == e.name;
    var received := set k | k in c && r(ParseIp(k.dstIp)) == e.name;
    var k := EndpointHasFlow(rows, e, c, r);
    assert k in sent || k in received;
    assert Class(c.Keys, SourceName(r), e.name) == sent;
    assert Class(c.Keys, DestinationName(r), e.name) == received;
    SumCongruent(sent, TxOf(c), k => if k in c then c[k].tx else 0);
    SumCongruent(received, RxOf(c), k => if k in c then c[k].rx else 0);
    AddIsWrap(e.txBytes, e.rxBytes);
  }

  /** Each flow has a talker under its two names and an endpoint under each of them. */
  lemma FlowIsRanked(talkers: seq<Talker>, endpoints: seq<Endpoint>, c: Counters, r: Resolver, k: FlowKey)
    requires TalkersOf(talkers, c, r) && EndpointsOf(endpoints, c, r) && k in c && PlainSources(c, r)
    ensures exists t :: t in talkers
              && t.source == r(ParseIp(k.srcIp)) && t.destination == r(ParseIp(k.dstIp))
    ensures exists e :: e in endpoints && e.name == r(ParseIp(k.srcIp))
    ensures exists e :: e in endpoints && e.name == r(ParseIp(k.dstIp))
  {
    hide ParseIp, PairKey, TalliedAt;
    assert PairAt(r, k) == PairName(r)(k) && PairName(r)(k) in TalkerKeys(talkers);
    var t :| t in talkers && TalkerKey(t) == PairAt(r, k);
    assert TalkerRow(t, c, r);
    PlainTalker(t, c, r);
    PairKeyInjective(SourceAt(r, k), DestinationAt(r, k), t.source, t.destination);
    assert SourceName(r)(k) in EndpointNames(endpoints) && DestinationName(r)(k) in EndpointNames(endpoints);
  }

  /** The largest totals come first. */
  lemma RankingsDescend(talkers: seq<Talker>, endpoints: seq<Endpoint>, c: Counters, r: Resolver, i: nat, j: nat)
    requires TalkersOf(talkers, c, r) && EndpointsOf(endpoints, c, r) && i < j
    ensures j < |talkers| ==> talkers[i].totalBytes >= talkers[j].totalBytes
    ensures j < |endpoints| ==> endpoints[i].totalBytes >= endpoints[j].totalBytes
  {
    hide TalkerRow, EndpointRow;
    if j < |talkers| {
      assert LargestTalker()(talkers[i], talkers[j]);
    }
    if j < |endpoints| {
      assert LargestEndpoint()(endpoints[i], endpoints[j]);
    }
  }

  // How the rankings fit together.

  /** A choice of pairs: all of them, those from a source, or those to a destination. */
  datatype Selection = Everyone | From(name: string) | To(name: string)

  predicate Selects(sel: Selection, pk: string) {
    match sel
    case Everyone => true
    case From(name) => SplitPair(pk).0 == name
    case To(name) => SplitPair(pk).1 == name
  }

  /** The bytes of the selected rows. */
  function RowBytes(sel: Selection, d: Direction): Talker -> int {
    (t: Talker) => if !Selects(sel, TalkerKey(t)) then 0 else if d.Transmitted? then t.txBytes else t.rxBytes
  }

  function FlowBytes(c: Counters, d: Direction): FlowKey -> int {
    if d.Transmitted? then TxOf(c) else RxOf(c)
  }

  /** The flows whose pair is selected. */
  ghost function Selected(c: Counters, r: Resolver, sel: Selection): set<FlowKey> {
    set k | k in c && Selects(sel, PairAt(r, k))
  }

  ghost function ClassIf(sel: Selection, g: string -> int): string -> int {
    pk => if Selects(sel, pk) then g(pk) else 0
  }

  function WrappedSum(g: string -> int): string -> int {
    pk => Wrap64(g(pk))
  }

  lemma {:induction false} WrapSum(s: set<string>, f: string -> int, g: string -> int)
    requires forall x :: x in s ==> f(x) == Wrap64(g(x))
    ensures Wrap64(SumSet(s, f)) == Wrap64(SumSet(s, g))
    decreases s
  {
    hide Wrap64;
    if s != {} {
      var x :| x in s;
      SumPick(s, f, x);
      SumPick(s, g, x);
      WrapSum(s - {x}, f, g);
      WrapOnce(SumSet(s - {x}, f), SumSet(s - {x}, g), g(x));
    }
  }

  lemma WrapOnce(a: int, b: int, x: int)
    requires Wrap64(a) == Wrap64(b)
    ensures Wrap64(Wrap64(x) + a) == Wrap64(x + b)
  {
    WrapAdd64(a, Wrap64(x));
    WrapAdd64(b, x);
  }

  function KeysOf(rows: seq<Talker>): (keys: seq<string>)
    ensures |keys| == |rows| && forall i :: 0 <= i < |rows| ==> keys[i] == TalkerKey(rows[i])
  {
    seq(|rows|, i requires 0 <= i < |rows| => TalkerKey(rows[i]))
  }

  lemma KeysListPairs(rows: seq<Talker>, c: Counters, r: Resolver)
    requires TalkersOf(rows, c, r)
    ensures IsListing(KeysOf(rows), Names(c.Keys, PairName(r)))
  {
    hide TalkerRow, PairName, TalkerKey;
    var keys := KeysOf(rows);
    forall t | t in rows ensures TalkerKey(t) in keys {
      var i :| 0 <= i < |rows| && rows[i] == t;
      assert keys[i] == TalkerKey(t);
    }
    assert SetOf(keys) == TalkerKeys(rows);
    ListingByCount(keys, Names(c.Keys, PairName(r)));
  }

  lemma RowValue(t: Talker, c: Counters, r: Resolver, sel: Selection, d: Direction)
    requires TalkerRow(t, c, r)
    ensures RowBytes(sel, d)(t) ==
            ClassIf(sel, WrappedSum(ClassSum(c.Keys, PairName(r), FlowBytes(c, d))))(TalkerKey(t))
  {
    hide SumSet, Class, TalkerKey, PairName, Selects;
  }

  lemma SelectedClasses(c: Counters, r: Resolver, sel: Selection, f: FlowKey -> int)
    ensures SumSet(Names(c.Keys, PairName(r)), ClassIf(sel, ClassSum(c.Keys, PairName(r), f))) ==
            SumSet(Selected(c, r, sel), f)
  {
    hide Selects, SumSet, PairAt;
    var pairs, chosen := Names(c.Keys, PairName(r)), Selected(c, r, sel);
    SumPartition(chosen, pairs, PairName(r), f);
    forall pk | pk in pairs
      ensures ClassSum(chosen, PairName(r), f)(pk) == ClassIf(sel, ClassSum(c.Keys, PairName(r), f))(pk)
    {
      if Selects(sel, pk) {
        assert Class(chosen, PairName(r), pk) == Class(c.Keys, PairName(r), pk);
      } else {
        assert Class(chosen, PairName(r), pk) == {};
        EmptySum(f);
      }
    }
    SumCongruent(pairs, ClassSum(chosen, PairName(r), f), ClassIf(sel, ClassSum(c.Keys, PairName(r), f)));
  }

  lemma EmptySum(f: FlowKey -> int)
    ensures SumSet({}, f) == 0
  {
  }

  /** The rows of the selected pairs carry, modulo 2^64, the bytes of the flows of those pairs. */
  lemma SelectedRows(rows: seq<Talker>, c: Counters, r: Resolver, sel: Selection, d: Direction)
    requires TalkersOf(rows, c, r)
    ensures Wrap64(SumSeq(rows, RowBytes(sel, d))) == Wrap64(SumSet(Selected(c, r, sel), FlowBytes(c, d)))
  {
    var pairs, keys := Names(c.Keys, PairName(r)), KeysOf(rows);
    var byClass := ClassSum(c.Keys, PairName(r), FlowBytes(c, d));
    var wrapped := ClassIf(sel, WrappedSum(byClass));
    KeysListPairs(rows, c, r);
    forall i | 0 <= i < |rows| ensures RowBytes(sel, d)(rows[i]) == wrapped(keys[i]) {
      hide *;
      RowAt(rows, c, r, i);
      RowValue(rows[i], c, r, sel, d);
    }
    SumSeqMap(rows, keys, RowBytes(sel, d), wrapped);
    SumListing(keys, pairs, wrapped);
    WrappedClasses(pairs, sel, byClass);
    SelectedClasses(c, r, sel, FlowBytes(c, d));
  }

  lemma RowAt(rows: seq<Talker>, c: Counters, r: Resolver, i: nat)
    requires TalkersOf(rows, c, r) && i < |rows|
    ensures TalkerRow(rows[i], c, r)
  {
  }

  lemma WrappedClasses(s: set<string>, sel: Selection, g: string -> int)
    ensures Wrap64(SumSet(s, ClassIf(sel, WrappedSum(g)))) == Wrap64(SumSet(s, ClassIf(sel, g)))
  {
    hide Selects;
    WrapSum(s, ClassIf(sel, WrappedSum(g)), ClassIf(sel, g));
  }

  /** Grouping into pairs loses no byte: the rows add up to the flows, modulo 2^64. */
  lemma TalkersConserve(rows: seq<Talker>, c: Counters, r: Resolver, d: Direction)
    requires TalkersOf(rows, c, r)
    ensures Wrap64(SumSeq(rows, RowBytes(Everyone, d))) == Wrap64(SumSet(c.Keys, FlowBytes(c, d)))
  {
    hide TalkersOf;
    SelectedRows(rows, c, r, Everyone, d);
    assert Selected(c, r, Everyone) == c.Keys;
  }

  ghost predicate PlainSources(c: Counters, r: Resolver) {
    forall k :: k in c ==> NUL !in SourceAt(r, k)
  }

  lemma PlainPair(c: Counters, r: Resolver, k: FlowKey, name: string)
    requires PlainSources(c, r) && k in c
    ensures Selects(From(name), PairAt(r, k)) <==> SourceAt(r, k) == name
    ensures Selects(To(name), PairAt(r, k)) <==> DestinationAt(r, k) == name
  {
    hide SplitPair, PairKey, SourceAt, DestinationAt;
    PairRoundTrip(SourceAt(r, k), DestinationAt(r, k));
  }

  lemma NamedFlows(c: Counters, r: Resolver, name: string)
    requires PlainSources(c, r)
    ensures Selected(c, r, From(name)) == Class(c.Keys, SourceName(r), name)
    ensures Selected(c, r, To(name)) == Class(c.Keys, DestinationName(r), name)
  {
    hide PairAt, SourceAt, DestinationAt, Selects, PlainSources;
    forall k | k in c
      ensures Selects(From(name), PairAt(r, k)) <==> SourceAt(r, k) == name
      ensures Selects(To(name), PairAt(r, k)) <==> DestinationAt(r, k) == name
    {
      PlainPair(c, r, k, name);
    }
  }

  /** Main result: an endpoint transmits what the talkers with it as source transmit, and receives
      what the talkers with it as destination receive (modulo 2^64; a flow of a name to itself is
      on both sides). */
  lemma EndpointsAreMarginals(talkers: seq<Talker>, endpoints: seq<Endpoint>, e: Endpoint, c: Counters, r: Resolver)
    requires TalkersOf(talkers, c, r) && EndpointsOf(endpoints, c, r) && e in endpoints
    requires PlainSources(c, r)
    ensures e.txBytes == Wrap64(SumSeq(talkers, RowBytes(From(e.name), Transmitted)))
    ensures e.rxBytes == Wrap64(SumSeq(talkers, RowBytes(To(e.name), Received)))
  {
    hide TalkersOf, PlainSources, Selected, Class, SumSet, SumSeq, RowBytes;
    SelectedRows(talkers, c, r, From(e.name), Transmitted);
    SelectedRows(talkers, c, r, To(e.name), Received);
    NamedFlows(c, r, e.name);
    assert EndpointRow(e, c, r);
  }
}
