/** What the records of a report say about the rows behind them: their names, their numbers and their
    order. */
module LatencyRecords {
  import opened Machine
  import opened Sums
  import opened Sorting
  import opened RttValues
  import opened Percentile
  import opened PairKeys
  import opened Addresses
  import opened LatencyGroups
  import opened LatencyTracker

  lemma KeyOfRecord(g: Groups, entries: seq<Record>, rec: Record) returns (pk: string)
    requires ReportsOn(entries, g) && rec in entries
    ensures pk in g && rec == RecordOf(pk, g[pk])
  {
    assert rec in multiset(entries);
    assert rec in multiset(Records(g));
    pk :| pk in g && rec == RecordOf(pk, g[pk]);
  }

  lemma GroupIsReported(g: Groups, entries: seq<Record>, src: string, dst: string)
    requires ReportsOn(entries, g) && NUL !in src && PairKey(src, dst) in g
    ensures exists rec :: rec in entries && rec.source == src && rec.destination == dst
  {
    hide HistPercentile, Average, Clamp, Ordered;
    var pk := PairKey(src, dst);
    PairRoundTrip(src, dst);
    var rec := RecordOf(pk, g[pk]);
    assert rec in multiset(Records(g));
    assert rec in multiset(entries);
    assert rec.source == src && rec.destination == dst;
  }

  // Order.

  /** The highest p95 comes first. */
  lemma ReportDescends(entries: seq<Record>, g: Groups, i: nat, j: nat)
    requires ReportsOn(entries, g) && i < j < |entries|
    ensures entries[i].p95Us >= entries[j].p95Us
  {
    hide Records;
    assert HighestFirst()(entries[i], entries[j]);
  }

  // Names.

  lemma {:induction false} ValueHasRow(r: Resolver, rows: seq<RttRow>, pk: string)
    ensures ValuesOf(r, rows, pk) != [] <==>
            exists i :: 0 <= i < |rows| && rows[i].val.count != 0 && KeyOf(r, rows[i].id) == pk
    decreases |rows|
  {
    hide KeyOf;
    if rows != [] {
      var n := |rows| - 1;
      ValueHasRow(r, rows[..n], pk);
      assert forall i :: 0 <= i < n ==> rows[..n][i] == rows[i];
    }
  }

  /** The source of a record is the answer for the source address of a counted row, its destination
      that for the destination address. */
  lemma RecordIsResolved(r: Resolver, rows: seq<RttRow>, entries: seq<Record>, rec: Record) returns (i: nat)
    requires ReportsOn(entries, GroupRows(r, rows)) && rec in entries
    ensures i < |rows| && rows[i].val.count != 0
    ensures rec.source + [NUL] + rec.destination == r(rows[i].id.srcIp) + [NUL] + r(rows[i].id.dstIp)
    ensures NUL !in r(rows[i].id.srcIp) ==>
              rec.source == r(rows[i].id.srcIp) && rec.destination == r(rows[i].id.dstIp)
  {
    var pk := KeyOfRecord(GroupRows(r, rows), entries, rec);
    GroupIsMerge(r, rows, pk);
    ValueHasRow(r, rows, pk);
    i :| 0 <= i < |rows| && rows[i].val.count != 0 && KeyOf(r, rows[i].id) == pk;
    SplitRoundTrip(pk);
    PairRoundTrip(r(rows[i].id.srcIp), r(rows[i].id.dstIp));
  }

  /** And the other way: each counted row has a record under the names of its addresses. */
  lemma CountedRowIsReported(r: Resolver, rows: seq<RttRow>, entries: seq<Record>, i: nat)
    requires ReportsOn(entries, GroupRows(r, rows))
    requires i < |rows| && rows[i].val.count != 0 && NUL !in r(rows[i].id.srcIp)
    ensures exists rec :: rec in entries
              && rec.source == r(rows[i].id.srcIp) && rec.destination == r(rows[i].id.dstIp)
  {
    hide ReportsOn;
    var src, dst := r(rows[i].id.srcIp), r(rows[i].id.dstIp);
    ValueHasRow(r, rows, PairKey(src, dst));
    assert KeyOf(r, rows[i].id) == PairKey(src, dst);
    GroupIsMerge(r, rows, PairKey(src, dst));
    GroupIsReported(GroupRows(r, rows), entries, src, dst);
  }

  // Numbers.

  lemma {:induction false} ValuesSum(r: Resolver, rows: seq<RttRow>, pk: string, f: RttVal -> int)
    ensures SumSeq(ValuesOf(r, rows, pk), f) ==
            SumSeq(rows, (row: RttRow) => if row.val.count != 0 && KeyOf(r, row.id) == pk then f(row.val) else 0)
    decreases |rows|
  {
    hide KeyOf;
    if rows != [] {
      var n := |rows| - 1;
      ValuesSum(r, rows[..n], pk, f);
      SumSnoc(ValuesOf(r, rows[..n], pk), rows[n].val, f);
      assert ValuesOf(r, rows[..n], pk) + [] == ValuesOf(r, rows[..n], pk);
    }
  }

  ghost predicate PlainNames(r: Resolver, rows: seq<RttRow>) {
    forall i :: 0 <= i < |rows| ==> NUL !in r(rows[i].id.srcIp)
  }

  lemma SameNames(r: Resolver, row: RttRow, pk: string)
    requires NUL !in r(row.id.srcIp) && NUL in pk
    ensures KeyOf(r, row.id) == pk <==>
            r(row.id.srcIp) == SplitPair(pk).0 && r(row.id.dstIp) == SplitPair(pk).1
  {
    PairRoundTrip(r(row.id.srcIp), r(row.id.dstIp));
    SplitRoundTrip(pk);
  }

  /** A sum over the counted rows of a record's names. */
  lemma NamedSum(r: Resolver, rows: seq<RttRow>, pk: string, f: RttVal -> int, g: RttRow -> int)
    requires PlainNames(r, rows) && NUL in pk
    requires forall row: RttRow :: g(row) ==
               if row.val.count != 0 && r(row.id.srcIp) == SplitPair(pk).0 && r(row.id.dstIp) == SplitPair(pk).1
               then f(row.val) else 0
    ensures SumSeq(ValuesOf(r, rows, pk), f) == SumSeq(rows, g)
  {
    hide KeyOf, SplitPair, ValuesOf, SumSeq;
    ValuesSum(r, rows, pk, f);
    var byKey := (row: RttRow) => if row.val.count != 0 && KeyOf(r, row.id) == pk then f(row.val) else 0;
    forall i | 0 <= i < |rows| ensures byKey(rows[i]) == g(rows[i]) {
      SameNames(r, rows[i], pk);
    }
    SumSeqCongruent(rows, byKey, g);
  }

  /** Whatever the rows hold, a record counts the samples of the counted rows of its names, and its
      average is the quotient of their sum, both modulo 2^64. */
  lemma RecordAddsUp(r: Resolver, rows: seq<RttRow>, entries: seq<Record>, rec: Record)
    requires ReportsOn(entries, GroupRows(r, rows)) && rec in entries && PlainNames(r, rows)
    ensures
      var samples := SumSeq(rows, (row: RttRow) =>
        if row.val.count != 0 && r(row.id.srcIp) == rec.source && r(row.id.dstIp) == rec.destination
        then row.val.count else 0);
      var micros := SumSeq(rows, (row: RttRow) =>
        if row.val.count != 0 && r(row.id.srcIp) == rec.source && r(row.id.dstIp) == rec.destination
        then row.val.sumUs else 0);
      && rec.samples == Wrap64(samples)
      && (rec.samples > 0 ==> rec.avgUs * (rec.samples as real) == Wrap64(micros) as real)
  {
    hide ReportsOn, GroupRows, SplitPair, ValuesOf, SumSeq, MergeAll, Wrap64, HistPercentile;
    var pk := KeyOfRecord(GroupRows(r, rows), entries, rec);
    GroupIsMerge(r, rows, pk);
    MergeAllAddsUp(ValuesOf(r, rows, pk), 0);
    NamedSum(r, rows, pk, (v: RttVal) => v.count, (row: RttRow) =>
      if row.val.count != 0 && r(row.id.srcIp) == rec.source && r(row.id.dstIp) == rec.destination
      then row.val.count else 0);
    NamedSum(r, rows, pk, (v: RttVal) => v.sumUs, (row: RttRow) =>
      if row.val.count != 0 && r(row.id.srcIp) == rec.source && r(row.id.dstIp) == rec.destination
      then row.val.sumUs else 0);
  }

  lemma {:induction false} ValueOfRow(r: Resolver, rows: seq<RttRow>, pk: string, v: RttVal)
    ensures v in ValuesOf(r, rows, pk) <==>
            exists i :: 0 <= i < |rows| && rows[i].val == v && v.count != 0 && KeyOf(r, rows[i].id) == pk
    decreases |rows|
  {
    hide KeyOf;
    if rows != [] {
      var n := |rows| - 1;
      ValueOfRow(r, rows[..n], pk, v);
      assert forall i :: 0 <= i < n ==> rows[..n][i] == rows[i];
    }
  }

  /** A counted row of a record's names. */
  ghost predicate Behind(r: Resolver, row: RttRow, rec: Record) {
    row.val.count != 0 && r(row.id.srcIp) == rec.source && r(row.id.dstIp) == rec.destination
  }

  /** The maximum of a record is the greatest of its rows, the minimum the least that is not 0. */
  lemma RecordExtremes(r: Resolver, rows: seq<RttRow>, entries: seq<Record>, rec: Record)
    requires ReportsOn(entries, GroupRows(r, rows)) && rec in entries && PlainNames(r, rows)
    ensures forall row :: row in rows && Behind(r, row, rec) ==> row.val.maxUs <= rec.maxUs
    ensures rec.maxUs == 0 || exists row :: row in rows && Behind(r, row, rec) && row.val.maxUs == rec.maxUs
    ensures forall row :: row in rows && Behind(r, row, rec) && row.val.minUs > 0 ==> 0 < rec.minUs <= row.val.minUs
    ensures rec.minUs == 0 || exists row :: row in rows && Behind(r, row, rec) && row.val.minUs == rec.minUs
  {
    hide ReportsOn, GroupRows, SplitPair, ValuesOf, MergeAll, HistPercentile, KeyOf;
    var pk := KeyOfRecord(GroupRows(r, rows), entries, rec);
    GroupIsMerge(r, rows, pk);
    var vals := ValuesOf(r, rows, pk);
    MergeAllExtremes(vals);
    forall v ensures v in vals <==> exists row :: row in rows && Behind(r, row, rec) && row.val == v {
      ValueOfRow(r, rows, pk, v);
      forall i | 0 <= i < |rows|
        ensures KeyOf(r, rows[i].id) == pk && rows[i].val.count != 0 <==> Behind(r, rows[i], rec)
      {
        SameNames(r, rows[i], pk);
      }
    }
  }

  // Percentiles.

  /** A percentile above the maximum is shown as the maximum, unless the maximum is 0. */
  lemma CapsAtMaximum(pk: string, a: RttVal)
    ensures a.maxUs > 0 ==> RecordOf(pk, a).p95Us <= a.maxUs as real && RecordOf(pk, a).p99Us <= a.maxUs as real
    ensures HistPercentile(a.hist, a.count, 0.95) <= a.maxUs as real || a.maxUs == 0 ==>
              RecordOf(pk, a).p95Us == HistPercentile(a.hist, a.count, 0.95)
    ensures HistPercentile(a.hist, a.count, 0.99) <= a.maxUs as real || a.maxUs == 0 ==>
              RecordOf(pk, a).p99Us == HistPercentile(a.hist, a.count, 0.99)
    ensures HistPercentile(a.hist, a.count, 0.95) > a.maxUs as real > 0.0 ==> RecordOf(pk, a).p95Us == a.maxUs as real
    ensures HistPercentile(a.hist, a.count, 0.99) > a.maxUs as real > 0.0 ==> RecordOf(pk, a).p99Us == a.maxUs as real
  {
    hide HistPercentile, SplitPair;
  }
}
