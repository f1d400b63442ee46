/** The RTT probe in the kernel, run one packet at a time, and the table it leaves behind. */
module RttProbe {
  import opened Machine
  import opened Bucketing
  import opened Sums
  import opened Folds
  import opened RttValues
  import opened CellTables
  import opened Addresses

  /** One received segment: the connection and its smoothed RTT, scaled by eight. */
  datatype Segment = Segment(id: FlowId, srtt: u32)

  type RttMap = map<FlowId, RttVal>

  function RttOf(e: Segment): u32 {
    e.srtt / 8
  }

  function Probe(m: RttMap, e: Segment): RttMap {
    if RttOf(e) == 0 || (e.id !in m && |m| >= MAX_ENTRIES) then m else AddTo(m, e.id, Single(RttOf(e)))
  }

  /** The handler: an update of the flow's cell, or the insertion of a new one, which fails
      silently when the map is full. */
  method KprobeTcpRcvEstablished(rttMap: CellTable<FlowId>, e: Segment)
    requires rttMap.Valid()
    modifies rttMap, rttMap.Footprint()
    ensures rttMap.Valid() && fresh(rttMap.Footprint() - old(rttMap.Footprint()))
    ensures rttMap.View() == Probe(old(rttMap.View()), e)
  {
    hide AddTo, Single, Log2;
    var rttUs: u32 := e.srtt / 8;
    if rttUs == 0 {
      return;
    }
    var bucket := RttLog2(rttUs);
    if bucket >= BUCKETS {
      bucket := BUCKETS - 1;
    }
    assert rttMap.View().Keys == rttMap.cells.Keys;
    if e.id in rttMap.cells {
      rttMap.Observe(e.id, rttUs, bucket);
    } else if |rttMap.cells| < MAX_ENTRIES {
      rttMap.Insert(e.id, rttUs, bucket);
    }
  }

  function Run(events: seq<Segment>): RttMap {
    Fold(Probe, map[], events)
  }

  /** The non-zero samples of the flows that `sel` selects, in order of arrival. */
  function Samples(events: seq<Segment>, sel: FlowId -> bool): seq<u32> {
    if events == [] then [] else
      var init, last := events[..|events| - 1], events[|events| - 1];
      Samples(init, sel) + (if sel(last.id) && RttOf(last) > 0 then [RttOf(last)] else [])
  }

  function Only(id: FlowId): FlowId -> bool {
    x => x == id
  }

  /** After any run, each flow in the table holds exactly the accumulation of all its samples; a
      flow with samples is missing only if the table is full. */
  lemma {:induction false} RunAccumulates(events: seq<Segment>, id: FlowId)
    ensures id in Run(events) ==>
              Samples(events, Only(id)) != [] && Run(events)[id] == AccOf(Samples(events, Only(id)))
    ensures id !in Run(events) && Samples(events, Only(id)) != [] ==> |Run(events)| == MAX_ENTRIES
    ensures |Run(events)| <= MAX_ENTRIES
    decreases |events|
  {
    if events != [] {
      var init, last := events[..|events| - 1], events[|events| - 1];
      RunAccumulates(init, id);
      assert init + [last] == events;
      OneMore(init, last, Only(id));
    }
  }

  /** A sample is the eighth of the smoothed RTT, rounded down. */
  lemma RttIsEighth(e: Segment)
    ensures 8 * RttOf(e) <= e.srtt < 8 * RttOf(e) + 8
  {
  }

  /** The samples of a choice of flows, counted and summed over the segments themselves; a smoothed RTT
      below 8 gives none. */
  lemma {:induction false} SamplesAddUp(events: seq<Segment>, sel: FlowId -> bool, b: nat)
    ensures |Samples(events, sel)| == SumSeq(events, (e: Segment) => if sel(e.id) && e.srtt >= 8 then 1 else 0)
    ensures SumSeq(Samples(events, sel), Identity()) ==
            SumSeq(events, (e: Segment) => if sel(e.id) then e.srtt / 8 else 0)
    ensures SumSeq(Samples(events, sel), InBucket(b)) == SumSeq(events, (e: Segment) =>
              if sel(e.id) && e.srtt >= 8 && Bucket(e.srtt / 8) == b then 1 else 0)
    decreases |events|
  {
    hide Bucket;
    if events != [] {
      var init, last := events[..|events| - 1], events[|events| - 1];
      SamplesAddUp(init, sel, b);
      SumSnoc(Samples(init, sel), RttOf(last), Identity());
      SumSnoc(Samples(init, sel), RttOf(last), InBucket(b));
      assert Samples(init, sel) + [] == Samples(init, sel);
    }
  }

  /** After any run, what a recorded flow holds in terms of the segments themselves. */
  lemma RecordedFlowAddsUp(events: seq<Segment>, id: FlowId, b: nat)
    requires id in Run(events) && b < BUCKETS
    ensures Run(events)[id].count ==
            Wrap64(SumSeq(events, (e: Segment) => if e.id == id && e.srtt >= 8 then 1 else 0))
    ensures Run(events)[id].sumUs ==
            Wrap64(SumSeq(events, (e: Segment) => if e.id == id then e.srtt / 8 else 0))
    ensures Run(events)[id].hist[b] == Wrap32(SumSeq(events, (e: Segment) =>
              if e.id == id && e.srtt >= 8 && Bucket(e.srtt / 8) == b then 1 else 0))
  {
    hide Run, AccOf, Samples, SumSeq, Wrap64, Wrap32, Bucket;
    var xs := Samples(events, Only(id));
    RunAccumulates(events, id);
    AccTotals(xs);
    AccCells(xs, b);
    SamplesAddUp(events, Only(id), b);
    SumSeqCongruent(events,
      (e: Segment) => if Only(id)(e.id) && e.srtt >= 8 then 1 else 0,
      (e: Segment) => if e.id == id && e.srtt >= 8 then 1 else 0);
    SumSeqCongruent(events,
      (e: Segment) => if Only(id)(e.id) then e.srtt / 8 else 0,
      (e: Segment) => if e.id == id then e.srtt / 8 else 0);
    SumSeqCongruent(events,
      (e: Segment) => if Only(id)(e.id) && e.srtt >= 8 && Bucket(e.srtt / 8) == b then 1 else 0,
      (e: Segment) => if e.id == id && e.srtt >= 8 && Bucket(e.srtt / 8) == b then 1 else 0);
  }

  lemma {:induction false} SampleMultiplicity(events: seq<Segment>, sel: FlowId -> bool, x: u32)
    ensures multiset(Samples(events, sel))[x] == SumSeq(events, (e: Segment) =>
              if sel(e.id) && e.srtt >= 8 && e.srtt / 8 == x then 1 else 0)
    decreases |events|
  {
    if events != [] {
      var n := |events| - 1;
      SampleMultiplicity(events[..n], sel, x);
    }
  }

  lemma {:induction false} SampleOfSegment(events: seq<Segment>, sel: FlowId -> bool, x: u32)
    ensures x in Samples(events, sel) <==>
            exists i :: 0 <= i < |events| && sel(events[i].id) && events[i].srtt >= 8 && x == events[i].srtt / 8
    decreases |events|
  {
    if events != [] {
      var n := |events| - 1;
      SampleOfSegment(events[..n], sel, x);
      assert forall i :: 0 <= i < n ==> events[..n][i] == events[i];
    }
  }

  /** The extremes of a recorded flow, too; and a flow is missing only if it had no segment that counts
      or the map was full. */
  lemma RecordedFlowExtremes(events: seq<Segment>, id: FlowId, i: nat)
    requires i < |events| && events[i].id == id && events[i].srtt >= 8
    ensures id !in Run(events) ==> |Run(events)| == 65536
    ensures id in Run(events) ==> Run(events)[id].minUs <= events[i].srtt / 8 <= Run(events)[id].maxUs
    ensures id in Run(events) ==> exists j :: && 0 <= j < |events| && events[j].id == id
                                              && events[j].srtt / 8 == Run(events)[id].maxUs
    ensures id in Run(events) ==> exists j :: && 0 <= j < |events| && events[j].id == id && events[j].srtt >= 8
                                              && events[j].srtt / 8 == Run(events)[id].minUs
  {
    hide Run, AccOf, Samples;
    var xs := Samples(events, Only(id));
    RunAccumulates(events, id);
    SampleOfSegment(events, Only(id), events[i].srtt / 8);
    if id in Run(events) {
      SamplesInRange(events, Only(id));
      AccExtremes(xs);
      SampleOfSegment(events, Only(id), AccOf(xs).maxUs);
      SampleOfSegment(events, Only(id), AccOf(xs).minUs);
    }
  }

  lemma {:induction false} SamplesInRange(events: seq<Segment>, sel: FlowId -> bool)
    ensures |Samples(events, sel)| <= |events|
    ensures Positive(Samples(events, sel))
    ensures forall i :: 0 <= i < |Samples(events, sel)| ==> Samples(events, sel)[i] < 0x2000_0000
    decreases |events|
  {
    if events != [] {
      SamplesInRange(events[..|events| - 1], sel);
    }
  }

  // Merging the rows of a table.

  lemma {:induction false} MergeAllUpdate(vals: seq<RttVal>, i: nat, w: RttVal)
    requires i < |vals|
    ensures MergeAll(vals[i := Merge(vals[i], w)]) == Merge(MergeAll(vals), w)
    decreases |vals|
  {
    var n := |vals| - 1;
    var changed := vals[i := Merge(vals[i], w)];
    if i == n {
      assert changed[..n] == vals[..n];
      MergeAssociates(MergeAll(vals[..n]), vals[n], w);
    } else {
      assert changed[..n] == vals[..n][i := Merge(vals[i], w)];
      MergeAllUpdate(vals[..n], i, w);
      MergeSwap(MergeAll(vals[..n]), w, vals[n]);
    }
  }

  /** The accumulations of the listed flows. */
  function PerFlow(events: seq<Segment>, ids: seq<FlowId>): (r: seq<RttVal>)
    ensures |r| == |ids| && forall i :: 0 <= i < |r| ==> r[i] == AccOf(Samples(events, Only(ids[i])))
  {
    seq(|ids|, i requires 0 <= i < |ids| => AccOf(Samples(events, Only(ids[i]))))
  }

  function Among(ids: seq<FlowId>): FlowId -> bool {
    x => x in ids
  }

  /** Merging flows equals one accumulator over the interleaved samples, in arrival order. */
  lemma {:induction false} MergedFlowsAreOneAccumulator(events: seq<Segment>, ids: seq<FlowId>)
    requires forall i, j :: 0 <= i < j < |ids| ==> ids[i] != ids[j]
    ensures MergeAll(PerFlow(events, ids)) == AccOf(Samples(events, Among(ids)))
    decreases |events|
  {
    if events == [] {
      AllZero(PerFlow(events, ids));
    } else {
      var init, last := events[..|events| - 1], events[|events| - 1];
      assert init + [last] == events;
      MergedFlowsAreOneAccumulator(init, ids);
      OneMore(init, last, Among(ids));
      if last.id in ids && RttOf(last) > 0 {
        var i :| 0 <= i < |ids| && ids[i] == last.id;
        ListedFlowGrows(init, last, ids, i);
        MergeAllUpdate(PerFlow(init, ids), i, Single(RttOf(last)));
      } else {
        OtherFlowsStay(init, last, ids);
      }
    }
  }

  lemma ListedFlowGrows(init: seq<Segment>, last: Segment, ids: seq<FlowId>, i: nat)
    requires forall i, j :: 0 <= i < j < |ids| ==> ids[i] != ids[j]
    requires i < |ids| && ids[i] == last.id && RttOf(last) > 0
    ensures PerFlow(init + [last], ids) ==
            PerFlow(init, ids)[i := Merge(PerFlow(init, ids)[i], Single(RttOf(last)))]
  {
    var before, after := PerFlow(init, ids), PerFlow(init + [last], ids);
    forall k | 0 <= k < |ids| && k != i ensures after[k] == before[k] {
      OneMore(init, last, Only(ids[k]));
    }
    OneMore(init, last, Only(ids[i]));
    assert after[i] == Push(before[i], RttOf(last));
  }

  lemma OtherFlowsStay(init: seq<Segment>, last: Segment, ids: seq<FlowId>)
    requires last.id !in ids || RttOf(last) == 0
    ensures PerFlow(init + [last], ids) == PerFlow(init, ids)
  {
    var before, after := PerFlow(init, ids), PerFlow(init + [last], ids);
    forall k | 0 <= k < |ids| ensures after[k] == before[k] {
      OneMore(init, last, Only(ids[k]));
    }
  }

  lemma OneMore(init: seq<Segment>, last: Segment, sel: FlowId -> bool)
    ensures AccOf(Samples(init + [last], sel)) ==
            if sel(last.id) && RttOf(last) > 0 then Push(AccOf(Samples(init, sel)), RttOf(last))
            else AccOf(Samples(init, sel))
  {
    var before := Samples(init, sel);
    assert (init + [last])[..|init|] == init;
    assert (before + [RttOf(last)])[..|before|] == before;
    assert before + [] == before;
  }

  lemma {:induction false} AllZero(vals: seq<RttVal>)
    requires forall i :: 0 <= i < |vals| ==> vals[i] == ZERO
    ensures MergeAll(vals) == ZERO
  {
    if vals != [] {
      AllZero(vals[..|vals| - 1]);
      MergeZero(ZERO);
    }
  }
}
