/** The latency report: rows grouped by resolved pair, one record per pair, highest p95 first. */
module LatencyTracker {
  import opened Machine
  import opened Sorting
  import opened RttValues
  import opened CellTables
  import opened Percentile
  import opened PairKeys
  import opened Addresses
  import opened LatencyGroups
  import opened Readings

  datatype Record = Record(
    source: string,
    destination: string,
    avgUs: real,
    p95Us: real,
    p99Us: real,
    minUs: u32,
    maxUs: u32,
    samples: u64)

  function Average(a: RttVal): real {
    if a.count > 0 then a.sumUs as real / a.count as real else 0.0
  }

  function RecordOf(pk: string, a: RttVal): Record {
    Record(SplitPair(pk).0, SplitPair(pk).1, Average(a),
           Clamp(HistPercentile(a.hist, a.count, 0.95), a.maxUs),
           Clamp(HistPercentile(a.hist, a.count, 0.99), a.maxUs),
           a.minUs, a.maxUs, a.count)
  }

  /** The records of the pairs in `pks`. */
  function RecordsOf(g: Groups, pks: set<string>): set<Record> {
    set pk | pk in pks && pk in g :: RecordOf(pk, g[pk])
  }

  function Records(g: Groups): set<Record> {
    RecordsOf(g, g.Keys)
  }

  function HighestFirst(): (Record, Record) -> bool {
    (x: Record, y: Record) => x.p95Us >= y.p95Us
  }

  /** The report on a set of groups: one record for each, ordered by p95. */
  ghost predicate ReportsOn(entries: seq<Record>, g: Groups) {
    multiset(entries) == multiset(Records(g)) && Ordered(entries, HighestFirst())
  }

  ghost predicate JoinedKeys(g: Groups) {
    forall pk :: pk in g ==> NUL in pk
  }

  lemma GroupsAreJoined(r: Resolver, rows: seq<RttRow>)
    ensures JoinedKeys(GroupRows(r, rows))
  {
    forall pk | pk in GroupRows(r, rows) ensures NUL in pk {
      GroupIsMerge(r, rows, pk);
    }
  }

  method MakeRecord(pk: string, a: RttCell) returns (rec: Record)
    requires a.hist.Length == 27
    ensures rec == RecordOf(pk, a.Contents())
  {
    var parts := SplitPair(pk);
    var p95 := PercentileFromHist(a.hist[..], a.count, 0.95);
    var p99 := PercentileFromHist(a.hist[..], a.count, 0.99);
    if a.maxUs > 0 {
      if p95 > a.maxUs as real {
        p95 := a.maxUs as real;
      }
      if p99 > a.maxUs as real {
        p99 := a.maxUs as real;
      }
    }
    var avg := if a.count > 0 then a.sumUs as real / a.count as real else 0.0;
    rec := Record(parts.0, parts.1, avg, p95, p99, a.minUs, a.maxUs, a.count);
  }

  /** Walks the pair map in whatever order it yields its keys, then sorts. */
  method Report(pairs: CellTable<string>) returns (result: seq<Record>)
    requires pairs.Valid() && JoinedKeys(pairs.View())
    ensures ReportsOn(result, pairs.View())
  {
    result := [];
    var todo := pairs.cells.Keys;
    ghost var g := pairs.View();
    while todo != {}
      invariant todo <= g.Keys
      invariant multiset(result) == multiset(RecordsOf(g, g.Keys - todo))
    {
      var pk :| pk in todo;
      var rec := MakeRecord(pk, pairs.cells[pk]);
      NewRecord(g, g.Keys - todo, pk);
      result := result + [rec];
      todo := todo - {pk};
      assert g.Keys - todo == g.Keys - (todo + {pk}) + {pk};
    }
    assert g.Keys - todo == g.Keys;
    result := Sort(result, HighestFirst());
  }

  /** A pair not yet reported on adds a record that is not there yet. */
  lemma NewRecord(g: Groups, done: set<string>, pk: string)
    requires JoinedKeys(g)
    requires done <= g.Keys && pk in g && pk !in done
    ensures multiset(RecordsOf(g, done + {pk})) == multiset(RecordsOf(g, done)) + multiset{RecordOf(pk, g[pk])}
  {
    var rec := RecordOf(pk, g[pk]);
    SplitRoundTrip(pk);
    forall q | q in done ensures RecordOf(q, g[q]) != rec {
      SplitRoundTrip(q);
    }
    assert RecordsOf(g, done + {pk}) == RecordsOf(g, done) + {rec};
  }

  class Tracker {
    var entries: seq<Record>

    constructor ()
      ensures entries == []
    {
      entries := [];
    }

    /** A failed pass over the table leaves the previous report in place. */
    method Read(reading: Reading<RttRow>, r: Resolver) returns (ok: bool)
      modifies this
      ensures ok == reading.ok
      ensures !ok ==> entries == old(entries)
      ensures ok ==> ReportsOn(entries, GroupRows(r, reading.rows))
    {
      var pairMap := new CellTable<string>();
      for i := 0 to |reading.rows|
        invariant fresh(pairMap) && pairMap.Valid() && fresh(pairMap.Footprint())
        invariant pairMap.View() == GroupRows(r, reading.rows[..i])
        invariant entries == old(entries)
      {
        var row := reading.rows[i];
        assert reading.rows[..i + 1][..i] == reading.rows[..i];
        if row.val.count != 0 {
          var src := r(row.id.srcIp);
          var dst := r(row.id.dstIp);
          pairMap.Absorb(PairKey(src, dst), row.val);
        }
      }
      if !reading.ok {
        return false;
      }
      assert reading.rows[..|reading.rows|] == reading.rows;
      GroupsAreJoined(r, reading.rows);
      entries := Report(pairMap);
      return true;
    }
  }
}
