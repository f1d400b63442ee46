/** From packets to the printed report: what each record says about the raw samples behind it. */
module EndToEndLatency {
  import opened Machine
  import opened Bucketing
  import opened Sums
  import opened Sorting
  import opened RttValues
  import opened Percentile
  import opened PercentileAccuracy
  import opened PairKeys
  import opened Addresses
  import opened LatencyGroups
  import opened RttProbe
  import opened LatencyTracker
  import opened LatencyRecords

  /** The rows of a kernel table, in the order in which an iteration yields its keys. */
  function RowsOf(m: RttMap, order: seq<FlowId>): (rows: seq<RttRow>)
    requires forall i :: 0 <= i < |order| ==> order[i] in m
    ensures |rows| == |order| && forall i :: 0 <= i < |rows| ==> rows[i] == RttRow(order[i], m[order[i]])
  {
    seq(|order|, i requires 0 <= i < |order| => RttRow(order[i], m[order[i]]))
  }

  /** The flows of one pair that the table recorded. */
  function RecordedFor(flows: set<FlowId>, r: Resolver, pk: string): FlowId -> bool {
    id => id in flows && KeyOf(r, id) == pk
  }

  function PairFlows(r: Resolver, order: seq<FlowId>, pk: string): (ids: seq<FlowId>)
    ensures forall id :: id in ids <==> id in order && KeyOf(r, id) == pk
  {
    if order == [] then [] else
      var n := |order| - 1;
      assert order == order[..n] + [order[n]];
      PairFlows(r, order[..n], pk) + (if KeyOf(r, order[n]) == pk then [order[n]] else [])
  }

  lemma {:induction false} PairFlowsDistinct(r: Resolver, order: seq<FlowId>, pk: string)
    requires forall i, j :: 0 <= i < j < |order| ==> order[i] != order[j]
    ensures forall i, j :: 0 <= i < j < |PairFlows(r, order, pk)| ==>
              PairFlows(r, order, pk)[i] != PairFlows(r, order, pk)[j]
    decreases |order|
  {
    if order != [] {
      var n := |order| - 1;
      PairFlowsDistinct(r, order[..n], pk);
      assert order[n] !in order[..n];
      assert order[n] !in PairFlows(r, order[..n], pk);
    }
  }

  lemma {:induction false} SamplesCongruent(events: seq<Segment>, sel: FlowId -> bool, sel': FlowId -> bool)
    requires forall id :: sel(id) == sel'(id)
    ensures Samples(events, sel) == Samples(events, sel')
    decreases |events|
  {
    if events != [] {
      SamplesCongruent(events[..|events| - 1], sel, sel');
    }
  }

  /** The raw samples of one pair, in order of arrival. */
  function PairSamples(events: seq<Segment>, r: Resolver, pk: string): seq<u32> {
    Samples(events, RecordedFor(Run(events).Keys, r, pk))
  }

  /** They are the eighths of the smoothed RTTs of 8 or more, of all segments of recorded flows whose
      addresses have the two names. */
  lemma PairSamplesAre(events: seq<Segment>, r: Resolver, src: string, dst: string, x: u32)
    requires NUL !in src && forall i :: 0 <= i < |events| ==> NUL !in r(events[i].id.srcIp)
    ensures multiset(PairSamples(events, r, PairKey(src, dst)))[x] == SumSeq(events, (e: Segment) =>
              if e.id in Run(events) && r(e.id.srcIp) == src && r(e.id.dstIp) == dst && e.srtt >= 8 && e.srtt / 8 == x
              then 1 else 0)
  {
    hide Run, PairKey, Samples, SumSeq;
    var sel := RecordedFor(Run(events).Keys, r, PairKey(src, dst));
    SampleMultiplicity(events, sel, x);
    forall i | 0 <= i < |events|
      ensures sel(events[i].id) <==>
              events[i].id in Run(events) && r(events[i].id.srcIp) == src && r(events[i].id.dstIp) == dst
    {
      if KeyOf(r, events[i].id) == PairKey(src, dst) {
        PairKeyInjective(r(events[i].id.srcIp), r(events[i].id.dstIp), src, dst);
      }
    }
    SumSeqCongruent(events,
      (e: Segment) => if sel(e.id) && e.srtt >= 8 && e.srtt / 8 == x then 1 else 0,
      (e: Segment) =>
        if e.id in Run(events) && r(e.id.srcIp) == src && r(e.id.dstIp) == dst && e.srtt >= 8 && e.srtt / 8 == x
        then 1 else 0);
  }

  /** The count of a recorded flow is not zero, so its row is not skipped. */
  lemma RowsAreCounted(events: seq<Segment>, r: Resolver, id: FlowId)
    requires |PairSamples(events, r, KeyOf(r, id))| < TWO64
    requires id in Run(events)
    ensures Run(events)[id].count > 0
  {
    RunAccumulates(events, id);
    SamplesWithin(events, Only(id), RecordedFor(Run(events).Keys, r, KeyOf(r, id)));
    AccTotals(Samples(events, Only(id)));
  }

  lemma ValuesNext(m: RttMap, r: Resolver, order: seq<FlowId>, pk: string)
    requires order != [] && forall i :: 0 <= i < |order| ==> order[i] in m
    ensures
      var n := |order| - 1;
      var before, last := ValuesOf(r, RowsOf(m, order[..n]), pk), m[order[n]];
      ValuesOf(r, RowsOf(m, order), pk) ==
      if last.count != 0 && KeyOf(r, order[n]) == pk then before + [last] else before
  {
    hide KeyOf;
    var n := |order| - 1;
    assert RowsOf(m, order)[..n] == RowsOf(m, order[..n]);
    assert ValuesOf(r, RowsOf(m, order[..n]), pk) + [] == ValuesOf(r, RowsOf(m, order[..n]), pk);
  }

  lemma {:induction false} PairValues(events: seq<Segment>, r: Resolver, order: seq<FlowId>, pk: string)
    requires |PairSamples(events, r, pk)| < TWO64
    requires forall i :: 0 <= i < |order| ==> order[i] in Run(events)
    ensures ValuesOf(r, RowsOf(Run(events), order), pk) == PerFlow(events, PairFlows(r, order, pk))
    decreases |order|
  {
    hide KeyOf, ValuesOf, RowsOf, PairSamples, Run, AccOf, PerFlow;
    if order == [] {
      NoValues(events, r, pk);
    } else {
      var n := |order| - 1;
      PairValues(events, r, order[..n], pk);
      ValuesNext(Run(events), r, order, pk);
      if KeyOf(r, order[n]) == pk {
        RowsAreCounted(events, r, order[n]);
        RunAccumulates(events, order[n]);
        FlowAdded(events, PairFlows(r, order[..n], pk), order[n]);
      } else {
        assert PairFlows(r, order, pk) == PairFlows(r, order[..n], pk);
      }
    }
  }

  lemma FlowAdded(events: seq<Segment>, ids: seq<FlowId>, id: FlowId)
    ensures PerFlow(events, ids + [id]) == PerFlow(events, ids) + [AccOf(Samples(events, Only(id)))]
  {
  }

  lemma NoValues(events: seq<Segment>, r: Resolver, pk: string)
    ensures ValuesOf(r, RowsOf(Run(events), []), pk) == [] == PerFlow(events, PairFlows(r, [], pk))
  {
  }

  /** Whatever order the kernel table is read in, the group of a pair is the accumulation of
      exactly the samples of the recorded flows of that pair. Only a pair's own samples can make its
      64-bit count wrap to zero. */
  lemma PairGroup(events: seq<Segment>, r: Resolver, order: seq<FlowId>, pk: string)
    requires |PairSamples(events, r, pk)| < TWO64
    requires IsListing(order, Run(events).Keys)
    ensures
      var g, xs := GroupRows(r, RowsOf(Run(events), order)), PairSamples(events, r, pk);
      && (pk in g <==> xs != [])
      && (pk in g ==> g[pk] == AccOf(xs))
  {
    var rows, xs := RowsOf(Run(events), order), PairSamples(events, r, pk);
    var ids := PairFlows(r, order, pk);
    GroupIsMerge(r, rows, pk);
    PairValues(events, r, order, pk);
    PairFlowsDistinct(r, order, pk);
    MergedFlowsAreOneAccumulator(events, ids);
    SamplesCongruent(events, Among(ids), RecordedFor(Run(events).Keys, r, pk));
    if ids != [] {
      RunAccumulates(events, ids[0]);
      SamplesWithin(events, Only(ids[0]), Among(ids));
    } else {
      NoSamples(events, Among(ids));
    }
  }

  lemma {:induction false} NoSamples(events: seq<Segment>, sel: FlowId -> bool)
    requires forall id :: !sel(id)
    ensures Samples(events, sel) == []
  {
    if events != [] {
      NoSamples(events[..|events| - 1], sel);
    }
  }

  /** A wider choice of flows has no fewer samples. */
  lemma {:induction false} SamplesWithin(events: seq<Segment>, sel: FlowId -> bool, sel': FlowId -> bool)
    requires forall id :: sel(id) ==> sel'(id)
    ensures |Samples(events, sel)| <= |Samples(events, sel')|
    decreases |events|
  {
    if events != [] {
      SamplesWithin(events[..|events| - 1], sel, sel');
    }
  }

  // What a record says.

  lemma {:induction false} SumBetween(xs: seq<u32>, lo: nat, hi: nat)
    requires forall i :: 0 <= i < |xs| ==> lo <= xs[i] <= hi
    ensures |xs| * lo <= SumSeq(xs, Identity()) <= |xs| * hi
  {
    if xs != [] {
      var n := |xs| - 1;
      SumBetween(xs[..n], lo, hi);
      OneMoreTime(n, lo);
      OneMoreTime(n, hi);
    }
  }

  lemma OneMoreTime(n: nat, x: nat)
    ensures (n + 1) * x == n * x + x
  {
  }

  lemma ScaleReal(a: real, b: real, c: real)
    requires a < b && c > 0.0
    ensures a * c < b * c
  {
  }

  lemma RealProduct(a: nat, b: nat)
    ensures (b as real) * (a as real) == (a * b) as real
  {
  }

  lemma Quotient(sum: nat, count: nat, lo: nat, hi: nat)
    requires count > 0 && count * lo <= sum <= count * hi
    ensures lo as real <= sum as real / count as real <= hi as real
    ensures (sum as real / count as real) * (count as real) == sum as real
  {
    var q, n := sum as real / count as real, count as real;
    assert q * n == sum as real;
    RealProduct(count, lo);
    RealProduct(count, hi);
    if q < lo as real {
      ScaleReal(q, lo as real, n);
    }
    if q > hi as real {
      ScaleReal(hi as real, q, n);
    }
  }

  lemma SumFits(xs: seq<u32>)
    requires |xs| < TWO32
    ensures 0 <= SumSeq(xs, Identity()) < TWO64
  {
    SumBetween(xs, 0, 0xFFFF_FFFF);
  }

  /** Below 2^32 samples nothing wraps. */
  lemma ExactTotals(xs: seq<u32>)
    requires |xs| < TWO32
    ensures AccOf(xs).count == |xs| && AccOf(xs).sumUs == SumSeq(xs, Identity())
  {
    hide AccOf, SumSeq;
    AccTotals(xs);
    SumFits(xs);
  }

  lemma AverageInside(xs: seq<u32>, a: RttVal)
    requires 0 < |xs| < TWO32
    requires a.sumUs == SumSeq(xs, Identity()) && a.count == |xs|
    requires IsMinimum(a.minUs, xs) && IsMaximum(a.maxUs, xs)
    ensures a.minUs as real <= Average(a) <= a.maxUs as real
    ensures Average(a) * (|xs| as real) == SumSeq(xs, Identity()) as real
  {
    hide SumSeq;
    SumBetween(xs, a.minUs, a.maxUs);
    Quotient(a.sumUs, a.count, a.minUs, a.maxUs);
  }

  /** When every counted sample has a cell, the reported percentiles are ordered below the maximum. */
  lemma PercentilesInside(a: RttVal)
    requires 0 < a.count <= Cumulative(a.hist, 27) && a.maxUs > 0
    ensures Clamp(HistPercentile(a.hist, a.count, 0.95), a.maxUs)
         <= Clamp(HistPercentile(a.hist, a.count, 0.99), a.maxUs)
         <= a.maxUs as real
  {
    PercentilesOrdered(a.hist, a.count, 0.95, 0.99);
  }

  lemma AllCounted(xs: seq<u32>)
    requires |xs| < TWO32
    ensures Cumulative(AccOf(xs).hist, 27) == |xs|
  {
    CumulativeCounts(xs, 27);
    SumOfIndicators(xs, Below(27));
  }

  /** The error bound of one percentile of a record. */
  ghost predicate Accurate(e: real, ys: seq<u32>, p: real)
    requires ys != []
  {
    var x := ys[Target(|ys|, p) - 1] as real;
    && 2.0 * e <= 3.0 * x
    && (x < 134217728.0 ==> 3.0 * x < 4.0 * e)
    && 3.0 * x < 16.0 * e
  }

  lemma PercentileWithinBound(xs: seq<u32>, ys: seq<u32>, p: real)
    requires Positive(xs) && 0 < |xs| < TWO32
    requires forall i :: 0 <= i < |xs| ==> xs[i] < 0x2000_0000
    requires SortedCopy(ys, xs, AtMostU32())
    requires p > 0.0
    ensures |ys| == |xs|
    ensures Accurate(Clamp(HistPercentile(AccOf(xs).hist, |xs|, p), AccOf(xs).maxUs), ys, p)
  {
    var t := Target(|xs|, p);
    HistogramErrorBound(xs, ys, t);
    PowerOf26();
    assert Pow2(27) == 2 * Pow2(26) && Pow2(29) == 4 * Pow2(27);
    assert ys[t - 1] in multiset(ys);
    assert ys[t - 1] in multiset(xs);
  }

  /** What a record says about the samples `xs`, sorted as `ys`, that stand behind it. */
  ghost predicate Describes(rec: Record, xs: seq<u32>, ys: seq<u32>) {
    && xs != [] && rec.samples == |xs| == |ys|
    && IsMinimum(rec.minUs, xs) && IsMaximum(rec.maxUs, xs)
    && rec.avgUs * (|xs| as real) == SumSeq(xs, Identity()) as real
    && rec.minUs as real <= rec.avgUs <= rec.maxUs as real
    && rec.p95Us <= rec.p99Us <= rec.maxUs as real
    && Accurate(rec.p95Us, ys, 0.95) && Accurate(rec.p99Us, ys, 0.99)
  }

  lemma MaximumPositive(xs: seq<u32>)
    requires Positive(xs) && xs != []
    ensures AccOf(xs).maxUs > 0
  {
    hide AccOf;
    AccExtremes(xs);
  }

  lemma AccumulationDescribes(pk: string, xs: seq<u32>, ys: seq<u32>)
    requires Positive(xs) && 0 < |xs| < TWO32
    requires forall i :: 0 <= i < |xs| ==> xs[i] < 0x2000_0000
    requires SortedCopy(ys, xs, AtMostU32())
    ensures Describes(RecordOf(pk, AccOf(xs)), xs, ys)
  {
    hide AccOf, HistPercentile, Clamp, Average, Accurate, IsMinimum, IsMaximum, SumSeq, Cumulative, Positive, SplitPair;
    ExactTotals(xs);
    MaximumPositive(xs);
    SortedLength(ys, xs);
    AccExtremes(xs);
    AverageInside(xs, AccOf(xs));
    AllCounted(xs);
    PercentilesInside(AccOf(xs));
    PercentileWithinBound(xs, ys, 0.95);
    PercentileWithinBound(xs, ys, 0.99);
  }

  /** Main result. Take any packets, any name lookup, any iteration order of the kernel table and
      any record of the resulting report that stands for fewer than 2^32 samples. The samples of its
      pair are counted exactly, the extremes are true extremes around the true average, the
      percentiles are ordered below the maximum, and both meet the error bound against the sorted
      samples. */
  lemma RecordDescribesSamples(
    events: seq<Segment>, r: Resolver, order: seq<FlowId>, entries: seq<Record>, rec: Record,
    ys: seq<u32>)
    requires IsListing(order, Run(events).Keys)
    requires ReportsOn(entries, GroupRows(r, RowsOf(Run(events), order)))
    requires rec in entries
    requires |PairSamples(events, r, PairKey(rec.source, rec.destination))| < TWO32
    requires SortedCopy(ys, PairSamples(events, r, PairKey(rec.source, rec.destination)), AtMostU32())
    ensures Describes(rec, PairSamples(events, r, PairKey(rec.source, rec.destination)), ys)
  {
    var rows := RowsOf(Run(events), order);
    var pk := KeyOfRecord(GroupRows(r, rows), entries, rec);
    GroupIsMerge(r, rows, pk);
    SplitRoundTrip(pk);
    PairGroup(events, r, order, pk);
    SamplesInRange(events, RecordedFor(Run(events).Keys, r, pk));
    AccumulationDescribes(pk, PairSamples(events, r, pk), ys);
  }

  /** And the other way: every pair of which a recorded flow has samples is in the report. */
  lemma EveryPairIsReported(
    events: seq<Segment>, r: Resolver, order: seq<FlowId>, entries: seq<Record>, src: string, dst: string)
    requires IsListing(order, Run(events).Keys)
    requires ReportsOn(entries, GroupRows(r, RowsOf(Run(events), order)))
    requires NUL !in src && 0 < |PairSamples(events, r, PairKey(src, dst))| < TWO64
    ensures exists rec :: rec in entries && rec.source == src && rec.destination == dst
  {
    hide Run, GroupRows, PairSamples, ReportsOn;
    PairGroup(events, r, order, PairKey(src, dst));
    GroupIsReported(GroupRows(r, RowsOf(Run(events), order)), entries, src, dst);
  }
}
