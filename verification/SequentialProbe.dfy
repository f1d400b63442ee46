/** The interleaved probe, run one packet at a time, is the sequential probe. */
module SequentialProbe {
  import opened Machine
  import opened Bucketing
  import opened RttValues
  import opened Addresses
  import RttProbe
  import opened ConcurrentProbe

  /** The packet of probe number `i`, and the steps the probe takes. */
  function Packet(id: FlowId, srtt: u32, i: nat, steps: nat): seq<Action> {
    [Enter(id, srtt)] + seq(steps, k => Advance(i))
  }

  lemma RunNext(actions: seq<Action>, a: Action)
    ensures Run(actions + [a]) == Apply(Run(actions), a)
  {
    assert (actions + [a])[..|actions|] == actions;
  }

  lemma RunPacket(actions: seq<Action>, id: FlowId, srtt: u32, i: nat)
    ensures
      var s := Apply(Apply(Apply(Apply(Run(actions), Enter(id, srtt)), Advance(i)), Advance(i)), Advance(i));
      Run(actions + Packet(id, srtt, i, 3)) == s && Run(actions + Packet(id, srtt, i, 4)) == Apply(s, Advance(i))
  {
    hide Run, Apply;
    var a, b := actions + [Enter(id, srtt)], [Advance(i)];
    RunNext(actions, Enter(id, srtt));
    RunNext(a, Advance(i));
    RunNext(a + b, Advance(i));
    RunNext(a + b + b, Advance(i));
    RunNext(a + b + b + b, Advance(i));
    assert actions + Packet(id, srtt, i, 3) == a + b + b + b;
    assert actions + Packet(id, srtt, i, 4) == a + b + b + b + b;
  }

  /** A probe that finds a cell: three steps add to sum and count, the fourth to the histogram. */
  lemma PacketAdds(s: State, id: FlowId, srtt: u32)
    requires srtt >= 8 && id in s.live && s.live[id] < |s.cells|
    ensures
      var i, c := |s.probes|, s.live[id];
      var cell, rttUs := s.cells[c], srtt / 8;
      var s' := Apply(Apply(Apply(Apply(s, Enter(id, srtt)), Advance(i)), Advance(i)), Advance(i));
      var added := cell.(sum := cell.sum + rttUs, count := cell.count + 1);
      && s' == State(s.cells[c := added], s.live, s.probes + [Probe(id, rttUs, Counted(c))])
      && Apply(s', Advance(i)) == State(s.cells[c := added.(hist := Bumped(cell.hist, Bucket(rttUs)))], s.live,
                                        s.probes + [Probe(id, rttUs, Finished)])
  {
    hide Bucket, Bumped;
    var i, c := |s.probes|, s.live[id];
    var cell, rttUs := s.cells[c], srtt / 8;
    var s1 := Apply(s, Enter(id, srtt));
    assert s1 == s.(probes := s.probes + [Probe(id, rttUs, Entered)]);
    var s2 := Apply(s1, Advance(i));
    assert s2 == s.(probes := s.probes + [Probe(id, rttUs, Found(c))]);
    var s3 := Apply(s2, Advance(i));
    assert s3 == State(s.cells[c := cell.(sum := cell.sum + rttUs)], s.live, s.probes + [Probe(id, rttUs, Summed(c))]);
    var s4 := Apply(s3, Advance(i));
    var added := cell.(sum := cell.sum + rttUs, count := cell.count + 1);
    assert s4 == State(s.cells[c := added], s.live, s.probes + [Probe(id, rttUs, Counted(c))]);
    var s5 := Apply(s4, Advance(i));
    assert s5.cells == s.cells[c := added.(hist := Bumped(cell.hist, Bucket(rttUs)))];
    assert s5.probes == s.probes + [Probe(id, rttUs, Finished)];
  }

  /** A probe that finds none: it makes one, or is rejected by the full map; further steps do nothing. */
  lemma PacketInserts(s: State, id: FlowId, srtt: u32)
    requires srtt >= 8 && id !in s.live
    ensures
      var i, rttUs := |s.probes|, srtt / 8;
      var s' := Apply(Apply(Apply(s, Enter(id, srtt)), Advance(i)), Advance(i));
      && Apply(Apply(s', Advance(i)), Advance(i)) == s'
      && s' == if |s.live| >= MAX_ENTRIES then s.(probes := s.probes + [Probe(id, rttUs, Rejected)])
               else State(s.cells + [NewCell(Probe(id, rttUs, Missed))], s.live[id := |s.cells|],
                          s.probes + [Probe(id, rttUs, Finished)])
  {
    hide Bucket, NewCell;
    var i, rttUs := |s.probes|, srtt / 8;
    var s1 := Apply(s, Enter(id, srtt));
    assert s1 == s.(probes := s.probes + [Probe(id, rttUs, Entered)]);
    var s2 := Apply(s1, Advance(i));
    assert s2 == s.(probes := s.probes + [Probe(id, rttUs, Missed)]);
    var s3 := Apply(s2, Advance(i));
    assert s3.probes == s.probes + [if |s.live| >= MAX_ENTRIES then Probe(id, rttUs, Rejected)
                                    else Probe(id, rttUs, Finished)];
  }

  /** Each packet is dealt with before the next one enters. */
  ghost function OneByOne(events: seq<RttProbe.Segment>): seq<Action> {
    if events == [] then [] else
      var last := events[|events| - 1];
      var before := OneByOne(events[..|events| - 1]);
      before + if last.srtt < 8 then [Enter(last.id, last.srtt)]
               else Packet(last.id, last.srtt, |Run(before).probes|, 4)
  }

  /** A cell holds what the sequential table holds, modulo the word widths. */
  ghost predicate SameValue(cell: Cell, v: RttVal) {
    && v.sumUs == Wrap64(cell.sum) && v.count == Wrap64(cell.count)
    && |cell.hist| == 27 && forall b :: 0 <= b < 27 ==> v.hist[b] == Wrap32(cell.hist[b])
  }

  ghost predicate SameTables(s: State, m: RttProbe.RttMap) {
    && s.live.Keys == m.Keys
    && forall id :: id in m ==>
         && s.live[id] < |s.cells| && s.cells[s.live[id]].id == id
         && SameValue(s.cells[s.live[id]], m[id])
  }

  lemma SampleKeeps(cell: Cell, v: RttVal, rttUs: u32)
    requires SameValue(cell, v)
    ensures SameValue(Cell(cell.id, cell.sum + rttUs, cell.count + 1, Bumped(cell.hist, Bucket(rttUs))),
                      Merge(v, Single(rttUs)))
  {
    hide Bucket, Wrap64, Wrap32, Add64, Add32;
    WrapNext64(cell.sum, rttUs);
    WrapNext64(cell.count, 1);
    forall b | 0 <= b < 27
      ensures Merge(v, Single(rttUs)).hist[b] == Wrap32(Bumped(cell.hist, Bucket(rttUs))[b])
    {
      WrapNext32(cell.hist[b], if b == Bucket(rttUs) then 1 else 0);
    }
  }

  lemma NewCellSame(id: FlowId, rttUs: u32)
    ensures NewCell(Probe(id, rttUs, Missed)).id == id
    ensures SameValue(NewCell(Probe(id, rttUs, Missed)), Merge(ZERO, Single(rttUs)))
  {
    hide Bucket;
    MergeZero(Single(rttUs));
    WrapSmall64(rttUs);
    WrapSmall64(1);
  }

  lemma CellChanges(s: State, m: RttProbe.RttMap, id: FlowId, cell: Cell, v: RttVal, probes: seq<Probe>)
    requires SameTables(s, m) && id in m && cell.id == id && SameValue(cell, v)
    ensures SameTables(State(s.cells[s.live[id] := cell], s.live, probes), m[id := v])
  {
    hide SameValue;
  }

  lemma CellAppears(s: State, m: RttProbe.RttMap, id: FlowId, cell: Cell, v: RttVal, probes: seq<Probe>)
    requires SameTables(s, m) && id !in m && cell.id == id && SameValue(cell, v)
    ensures SameTables(State(s.cells + [cell], s.live[id := |s.cells|], probes), m[id := v])
  {
    hide SameValue;
  }

  lemma HitKeeps(s: State, m: RttProbe.RttMap, e: RttProbe.Segment, probes: seq<Probe>)
    requires SameTables(s, m) && e.srtt >= 8 && e.id in m
    ensures
      var c, rttUs := s.live[e.id], e.srtt / 8;
      var cell := s.cells[c];
      SameTables(State(s.cells[c := Cell(e.id, cell.sum + rttUs, cell.count + 1, Bumped(cell.hist, Bucket(rttUs)))],
                       s.live, probes), RttProbe.Probe(m, e))
  {
    hide Merge, Single, SameValue, Bucket, Bumped;
    var cell, rttUs := s.cells[s.live[e.id]], e.srtt / 8;
    SampleKeeps(cell, m[e.id], rttUs);
    CellChanges(s, m, e.id, Cell(e.id, cell.sum + rttUs, cell.count + 1, Bumped(cell.hist, Bucket(rttUs))),
                Merge(m[e.id], Single(rttUs)), probes);
  }

  lemma MissKeeps(s: State, m: RttProbe.RttMap, e: RttProbe.Segment, probes: seq<Probe>)
    requires SameTables(s, m) && e.srtt >= 8 && e.id !in m
    ensures |s.live| < MAX_ENTRIES ==>
              SameTables(State(s.cells + [NewCell(Probe(e.id, e.srtt / 8, Missed))], s.live[e.id := |s.cells|], probes),
                         RttProbe.Probe(m, e))
    ensures |s.live| >= MAX_ENTRIES ==> SameTables(s.(probes := probes), RttProbe.Probe(m, e))
  {
    hide Merge, Single, SameValue, NewCell;
    assert |s.live| == |s.live.Keys| && |m| == |m.Keys|;
    NewCellSame(e.id, e.srtt / 8);
    CellAppears(s, m, e.id, NewCell(Probe(e.id, e.srtt / 8, Missed)), Merge(ZERO, Single(e.srtt / 8)), probes);
  }

  lemma LiveWhereKnown(s: State, m: RttProbe.RttMap, id: FlowId)
    requires SameTables(s, m)
    ensures id in s.live <==> id in m
    ensures id in m ==> s.live[id] < |s.cells| && s.cells[s.live[id]].id == id
  {
  }

  lemma PacketKeeps(actions: seq<Action>, m: RttProbe.RttMap, e: RttProbe.Segment)
    requires SameTables(Run(actions), m) && e.srtt >= 8
    ensures SameTables(Run(actions + Packet(e.id, e.srtt, |Run(actions).probes|, 4)), RttProbe.Probe(m, e))
  {
    hide Run, Apply, Packet, SameTables, RttProbe.Probe, NewCell, Bucket, Bumped;
    var s := Run(actions);
    LiveWhereKnown(s, m, e.id);
    RunPacket(actions, e.id, e.srtt, |s.probes|);
    var s' := Run(actions + Packet(e.id, e.srtt, |s.probes|, 4));
    if e.id in m {
      PacketAdds(s, e.id, e.srtt);
      HitKeeps(s, m, e, s'.probes);
    } else {
      PacketInserts(s, e.id, e.srtt);
      MissKeeps(s, m, e, s'.probes);
    }
  }

  /** Main result: for any packets, the live cells that the interleaved steps leave behind when they run
      one packet after the other are, flow by flow and word by word, those of the sequential probe. */
  lemma {:induction false} OneByOneIsSequential(events: seq<RttProbe.Segment>)
    ensures SameTables(Run(OneByOne(events)), RttProbe.Run(events))
    decreases |events|
  {
    if events != [] {
      hide Run, SameTables, RttProbe.Probe, Packet;
      var init, last := events[..|events| - 1], events[|events| - 1];
      OneByOneIsSequential(init);
      if last.srtt < 8 {
        NoSample(OneByOne(init), RttProbe.Run(init), last);
      } else {
        PacketKeeps(OneByOne(init), RttProbe.Run(init), last);
      }
    }
  }

  lemma NoSample(actions: seq<Action>, m: RttProbe.RttMap, e: RttProbe.Segment)
    requires e.srtt < 8
    ensures Run(actions + [Enter(e.id, e.srtt)]) == Run(actions) && RttProbe.Probe(m, e) == m
  {
    RunNext(actions, Enter(e.id, e.srtt));
  }
}
