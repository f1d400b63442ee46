/** When the p95 of a record exceeds its p99, and a run of the probe in which that happens. */
module PercentileOrder {
  import opened Machine
  import opened Bucketing
  import opened Folds
  import opened RttValues
  import opened Percentile
  import opened PercentileAccuracy
  import opened Addresses
  import opened LatencyGroups
  import opened LatencyTracker
  import opened ConcurrentProbe
  import opened SequentialProbe

  /** The lower rank falls into the last cell, the higher one lies beyond all recorded samples, and
      the maximum does not cut both percentiles down to the fallback value 2^26. */
  predicate Swapped(a: RttVal)
    requires a.count > 0
  {
    && Cumulative(a.hist, 26) < Target(a.count, 0.95) <= Cumulative(a.hist, 27) < Target(a.count, 0.99)
    && (a.maxUs == 0 || a.maxUs > 0x400_0000)
  }

  /** For every merged value: the reported p95 is at most the reported p99, unless `Swapped`. */
  lemma RecordPercentilesOrdered(pk: string, a: RttVal)
    ensures RecordOf(pk, a).p95Us <= RecordOf(pk, a).p99Us <==> !(a.count > 0 && Swapped(a))
  {
    if a.count > 0 {
      PercentilesOrdered(a.hist, a.count, 0.95, 0.99);
      FirstMeaning(a.hist, Target(a.count, 0.95));
      FirstMeaning(a.hist, Target(a.count, 0.99));
      PowerOf26();
      MidpointValue(26);
    }
  }

  // A run that leads there: a hundred packets of one flow, the last three probes still between the
  // two additions.

  const SRTT: u32 := 800_000_000
  const RTT: u32 := 100_000_000

  function Packets(id: FlowId, n: nat): seq<Action> {
    if n == 0 then [] else Packets(id, n - 1) + Packet(id, SRTT, n - 1, 4)
  }

  function Overtaken(id: FlowId): seq<Action> {
    Packets(id, 97) + Packet(id, SRTT, 97, 3) + Packet(id, SRTT, 98, 3) + Packet(id, SRTT, 99, 3)
  }

  /** A histogram with `n` samples, all in the last cell. */
  function Peak(n: nat): seq<nat> {
    seq(27, i => if i == 26 then n else 0)
  }

  /** One flow with one cell, after `n` packets. */
  ghost predicate OneCell(s: State, id: FlowId, n: nat, cell: Cell) {
    s.live == map[id := 0] && |s.probes| == n && s.cells == [cell]
  }

  lemma RttBucket()
    ensures Bucket(RTT) == 26
  {
    PowerOf26();
    BucketCovers(RTT, 26);
  }

  /** Three steps add a sample to sum and count, the fourth to the histogram. */
  lemma PacketCounts(actions: seq<Action>, id: FlowId, n: nat, cell: Cell)
    requires OneCell(Run(actions), id, n, cell) && cell.id == id && |cell.hist| == 27
    ensures OneCell(Run(actions + Packet(id, SRTT, n, 3)), id, n + 1,
                    Cell(id, cell.sum + RTT, cell.count + 1, cell.hist))
    ensures OneCell(Run(actions + Packet(id, SRTT, n, 4)), id, n + 1,
                    Cell(id, cell.sum + RTT, cell.count + 1, Bumped(cell.hist, 26)))
  {
    hide Run, Packet, Bucket, Apply;
    RttBucket();
    RunPacket(actions, id, SRTT, n);
    PacketAdds(Run(actions), id, SRTT);
  }

  lemma FirstCell(id: FlowId)
    ensures NewCell(Probe(id, RTT, Missed)) == Cell(id, RTT, 1, Peak(1))
  {
    hide Bucket;
    RttBucket();
  }

  /** The first packet makes the cell. */
  lemma FirstPacket(id: FlowId)
    ensures OneCell(Run(Packets(id, 1)), id, 1, Cell(id, RTT, 1, Peak(1)))
  {
    hide Packet, NewCell, Peak, Apply;
    FirstCell(id);
    RunPacket([], id, SRTT, 0);
    assert Packets(id, 1) == [] + Packet(id, SRTT, 0, 4);
    PacketInserts(Run([]), id, SRTT);
  }

  lemma {:induction false} AfterPackets(id: FlowId, n: nat)
    requires n > 0
    ensures OneCell(Run(Packets(id, n)), id, n, Cell(id, n * RTT, n, Peak(n)))
  {
    hide Run, Packet;
    if n == 1 {
      FirstPacket(id);
    } else {
      AfterPackets(id, n - 1);
      PacketCounts(Packets(id, n - 1), id, n - 1, Cell(id, (n - 1) * RTT, n - 1, Peak(n - 1)));
      assert Bumped(Peak(n - 1), 26) == Peak(n);
      assert (n - 1) * RTT + RTT == n * RTT;
    }
  }

  /** The count is ahead of the histogram by the three probes. */
  lemma AfterOvertaken(id: FlowId)
    ensures OneCell(Run(Overtaken(id)), id, 100, Cell(id, 100 * RTT, 100, Peak(97)))
  {
    hide Run, Packet, Packets;
    AfterPackets(id, 97);
    var actions := Packets(id, 97);
    PacketCounts(actions, id, 97, Cell(id, 97 * RTT, 97, Peak(97)));
    PacketCounts(actions + Packet(id, SRTT, 97, 3), id, 98, Cell(id, 98 * RTT, 98, Peak(97)));
    PacketCounts(actions + Packet(id, SRTT, 97, 3) + Packet(id, SRTT, 98, 3), id, 99, Cell(id, 99 * RTT, 99, Peak(97)));
  }

  lemma {:induction false} PeakCumulates(n: nat, i: nat)
    requires n < TWO32 && i <= 27
    ensures Cumulative(Words(Peak(n)), i) == if i == 27 then n else 0
  {
    if i > 0 {
      PeakCumulates(n, i - 1);
    }
  }

  /** What the tracker reads for the flow; all its samples being equal, so are the extremes. */
  function OvertakenRow(id: FlowId, s: State): RttRow
    requires id in s.live && |LiveCell(s, id).hist| == 27
  {
    var c := LiveCell(s, id);
    RttRow(id, RttVal(Wrap64(c.sum), Wrap64(c.count), RTT, RTT, Words(c.hist)))
  }

  lemma OneGroup(r: Resolver, row: RttRow)
    requires row.val.count != 0
    ensures GroupRows(r, [row]) == map[KeyOf(r, row.id) := row.val]
  {
    hide Merge, KeyOf;
    MergeZero(row.val);
    FoldNext(Step(r), map[], [row], 0);
    assert [row][..1] == [row] && [row][..0] == [];
  }

  lemma OneRecord(r: Resolver, row: RttRow, entries: seq<Record>)
    requires row.val.count != 0
    requires ReportsOn(entries, GroupRows(r, [row]))
    ensures entries == [RecordOf(KeyOf(r, row.id), row.val)]
  {
    hide RecordOf, GroupRows;
    OneGroup(r, row);
    var pk := KeyOf(r, row.id);
    var g: Groups := map[pk := row.val];
    assert pk in g && Records(g) == {RecordOf(pk, row.val)};
    assert |multiset(entries)| == 1;
    assert entries[0] in multiset(entries);
  }

  lemma OvertakenSwaps(sumUs: u64)
    ensures Swapped(RttVal(sumUs, 100, RTT, RTT, Words(Peak(97))))
  {
    PeakCumulates(97, 26);
    PeakCumulates(97, 27);
  }

  /** A table read while probes are at work can give a record whose p95 exceeds its p99. */
  lemma PercentilesCanSwap(id: FlowId, r: Resolver, entries: seq<Record>)
    ensures
      var s := Run(Overtaken(id));
      && id in s.live && |LiveCell(s, id).hist| == 27
      && (ReportsOn(entries, GroupRows(r, [OvertakenRow(id, s)])) ==>
            |entries| == 1 && entries[0].p95Us > entries[0].p99Us)
  {
    hide Run, Packet, Packets, Overtaken, GroupRows, ReportsOn, RecordOf, Swapped, Words;
    AfterOvertaken(id);
    var row := OvertakenRow(id, Run(Overtaken(id)));
    OvertakenSwaps(row.val.sumUs);
    RecordPercentilesOrdered(KeyOf(r, id), row.val);
    if ReportsOn(entries, GroupRows(r, [row])) {
      OneRecord(r, row, entries);
    }
  }
}
