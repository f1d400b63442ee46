/** Tables of latency cells that are updated in place: the kernel's rtt_map and the pair maps of
    the latency tracker and of the aggregator. Each key owns a cell, each cell its own array. */
module CellTables {
  import opened Machine
  import opened Bucketing
  import opened RttValues
  import opened Snapshots

  class RttCell {
    var sumUs: u64
    var count: u64
    var minUs: u32
    var maxUs: u32
    const hist: array<u32>

    function Contents(): RttVal
      requires hist.Length == 27
      reads this, hist
    {
      RttVal(sumUs, count, minUs, maxUs, hist[..])
    }

    constructor (minUs: u32, maxUs: u32)
      ensures fresh(hist) && hist.Length == 27
      ensures Contents() == RttVal(0, 0, minUs, maxUs, ZERO.hist)
    {
      this.sumUs, this.count := 0, 0;
      this.minUs, this.maxUs := minUs, maxUs;
      hist := new u32[27](_ => 0);
      new;
      assert hist[..] == ZERO.hist;
    }

    /** The structure the RTT probe inserts for the first sample of a flow. */
    constructor First(rttUs: u32, bucket: nat)
      requires bucket == Bucket(rttUs)
      ensures fresh(hist) && hist.Length == 27
      ensures Contents() == Merge(ZERO, Single(rttUs))
    {
      sumUs, count, minUs, maxUs := rttUs, 1, rttUs, rttUs;
      hist := new u32[27](_ => 0);
      new;
      hist[bucket] := 1;
      assert hist[..] == Single(rttUs).hist;
      MergeZero(Single(rttUs));
    }

    /** Sum, count and extremes of a merge step; the histogram is left to the caller. */
    method AddTotals(sumUs: u64, count: u64, minUs: u32, maxUs: u32)
      requires hist.Length == 27
      modifies this
      ensures Contents() == Merge(old(Contents()), RttVal(sumUs, count, minUs, maxUs, ZERO.hist))
    {
      this.sumUs := Add64(this.sumUs, sumUs);
      this.count := Add64(this.count, count);
      if minUs > 0 && (this.minUs == 0 || minUs < this.minUs) {
        this.minUs := minUs;
      }
      if maxUs > this.maxUs {
        this.maxUs := maxUs;
      }
      assert hist[..] == Merge(old(Contents()), RttVal(sumUs, count, minUs, maxUs, ZERO.hist)).hist;
    }

    /** The merge step of the latency tracker. */
    method Absorb(val: RttVal)
      requires hist.Length == 27
      modifies this, hist
      ensures Contents() == Merge(old(Contents()), val)
    {
      AddTotals(val.sumUs, val.count, val.minUs, val.maxUs);
      ghost var cells := old(hist[..]);
      assert hist[..] == cells;
      for i := 0 to 27
        modifies hist
        invariant forall k :: 0 <= k < i ==> hist[k] == Add32(cells[k], val.hist[k])
        invariant forall k :: i <= k < 27 ==> hist[k] == cells[k]
      {
        hist[i] := Add32(hist[i], val.hist[i]);
      }
      assert hist[..] == Merge(old(Contents()), val).hist;
    }

    /** Cell by cell up to the end of the shorter histogram. */
    method AddCells(wire: seq<u32>)
      requires hist.Length == 27
      modifies hist
      ensures forall k :: 0 <= k < 27 ==> hist[k] == if k < |wire| then Add32(old(hist[k]), wire[k]) else old(hist[k])
    {
      hide Add32;
      var i := 0;
      while i < 27 && i < |wire|
        invariant 0 <= i <= 27 && i <= |wire|
        invariant forall k :: 0 <= k < i ==> hist[k] == Add32(old(hist[k]), wire[k])
        invariant forall k :: i <= k < 27 ==> hist[k] == old(hist[k])
      {
        hist[i] := Add32(hist[i], wire[i]);
        i := i + 1;
      }
    }

    /** The merge step of the aggregator: missing cells act as zero, surplus cells are ignored. */
    method AbsorbEntry(e: RttEntry)
      requires hist.Length == 27
      modifies this, hist
      ensures Contents() == Merge(old(Contents()), ValueOf(e))
    {
      AddTotals(e.sumUs, e.count, e.minUs, e.maxUs);
      assert forall k :: 0 <= k < 27 ==> hist[k] == old(hist[k]);
      AddCells(e.hist);
      assert hist[..] == Merge(old(Contents()), ValueOf(e)).hist;
    }

    /** The update step of the RTT probe. */
    method Observe(rttUs: u32, bucket: nat)
      requires hist.Length == 27
      requires rttUs > 0 && bucket == Bucket(rttUs)
      modifies this, hist
      ensures Contents() == Push(old(Contents()), rttUs)
    {
      sumUs := Add64(sumUs, rttUs);
      count := Add64(count, 1);
      hist[bucket] := Add32(hist[bucket], 1);
      if rttUs < minUs || minUs == 0 {
        minUs := rttUs;
      }
      if rttUs > maxUs {
        maxUs := rttUs;
      }
      assert hist[..] == Push(old(Contents()), rttUs).hist;
    }
  }

  class CellTable<K(==)> {
    var cells: map<K, RttCell>

    ghost function Footprint(): set<object>
      reads this
    {
      (set k | k in cells :: cells[k] as object) + (set k | k in cells :: cells[k].hist as object)
    }

    /** Arrays are full size and no two keys share a cell or an array. */
    ghost predicate Valid()
      reads this
    {
      && (forall k :: k in cells ==> cells[k].hist.Length == 27)
      && (forall k, l :: k in cells && l in cells && k != l ==>
            cells[k] != cells[l] && cells[k].hist != cells[l].hist)
    }

    ghost function View(): (v: map<K, RttVal>)
      requires Valid()
      reads this, Footprint()
    {
      map k | k in cells :: cells[k].Contents()
    }

    constructor ()
      ensures Valid() && View() == map[] && Footprint() == {}
    {
      cells := map[];
    }

    /** Installs a new cell under a key, replacing the one that was there. */
    method Install(k: K, cell: RttCell)
      requires Valid()
      requires cell.hist.Length == 27
      requires cell !in Footprint() && cell.hist !in Footprint()
      modifies this
      ensures Valid() && Footprint() <= old(Footprint()) + {cell, cell.hist}
      ensures cells == old(cells)[k := cell]
      ensures View() == old(View())[k := cell.Contents()]
    {
      cells := cells[k := cell];
    }

    /** Gives a key that has none a cell, which starts at the given extremes. */
    method Provide(k: K, minUs: u32, maxUs: u32)
      requires Valid()
      modifies this
      ensures Valid() && k in cells && fresh(Footprint() - old(Footprint()))
      ensures View() == if k in old(View()) then old(View())
                        else old(View())[k := RttVal(0, 0, minUs, maxUs, ZERO.hist)]
    {
      if k !in cells {
        var a := new RttCell(minUs, maxUs);
        Install(k, a);
      }
    }

    /** Merges a value into the cell of its key, which starts at the value's own extremes. */
    method Absorb(k: K, val: RttVal)
      requires Valid()
      modifies this, Footprint()
      ensures Valid() && fresh(Footprint() - old(Footprint()))
      ensures View() == AddTo(old(View()), k, val)
    {
      hide Merge, View;
      MergeFirst(val);
      Provide(k, val.minUs, val.maxUs);
      AbsorbAt(k, val);
    }

    method AbsorbAt(k: K, val: RttVal)
      requires Valid() && k in cells
      modifies cells[k], cells[k].hist
      ensures Valid() && k in old(View())
      ensures View() == old(View())[k := Merge(old(View())[k], val)]
    {
      hide Merge;
      cells[k].Absorb(val);
      assert View() == old(View())[k := Merge(old(View())[k], val)];
    }

    /** The same for an entry of a snapshot. */
    method AbsorbEntry(k: K, e: RttEntry)
      requires Valid()
      modifies this, Footprint()
      ensures Valid() && fresh(Footprint() - old(Footprint()))
      ensures View() == AddTo(old(View()), k, ValueOf(e))
    {
      hide Merge, View;
      MergeFirst(ValueOf(e));
      Provide(k, e.minUs, e.maxUs);
      AbsorbEntryAt(k, e);
    }

    method AbsorbEntryAt(k: K, e: RttEntry)
      requires Valid() && k in cells
      modifies cells[k], cells[k].hist
      ensures Valid() && k in old(View())
      ensures View() == old(View())[k := Merge(old(View())[k], ValueOf(e))]
    {
      hide Merge;
      cells[k].AbsorbEntry(e);
      assert View() == old(View())[k := Merge(old(View())[k], ValueOf(e))];
    }

    /** Installs the cell of a key's first sample. */
    method Insert(k: K, rttUs: u32, bucket: nat)
      requires Valid()
      requires k !in cells
      requires bucket == Bucket(rttUs)
      modifies this
      ensures Valid() && fresh(Footprint() - old(Footprint()))
      ensures View() == AddTo(old(View()), k, Single(rttUs))
    {
      var cell := new RttCell.First(rttUs, bucket);
      Install(k, cell);
    }

    /** Adds one sample to the cell of a key that has one. */
    method Observe(k: K, rttUs: u32, bucket: nat)
      requires Valid()
      requires k in cells
      requires rttUs > 0 && bucket == Bucket(rttUs)
      modifies Footprint()
      ensures Valid() && Footprint() == old(Footprint())
      ensures View() == AddTo(old(View()), k, Single(rttUs))
    {
      cells[k].Observe(rttUs, bucket);
      assert View() == AddTo(old(View()), k, Single(rttUs));
    }
  }
}
