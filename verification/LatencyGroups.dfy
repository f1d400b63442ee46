/** Grouping latency rows by resolved pair, as a function of the rows. */
module LatencyGroups {
  import opened Folds
  import opened RttValues
  import opened PairKeys
  import opened Addresses

  datatype RttRow = RttRow(id: FlowId, val: RttVal)

  type Groups = map<string, RttVal>

  function KeyOf(r: Resolver, id: FlowId): string {
    PairKey(r(id.srcIp), r(id.dstIp))
  }

  /** One row: empty rows are skipped. */
  function AddRow(r: Resolver, g: Groups, row: RttRow): Groups {
    if row.val.count == 0 then g else AddTo(g, KeyOf(r, row.id), row.val)
  }

  function Step(r: Resolver): (Groups, RttRow) -> Groups {
    (g, row) => AddRow(r, g, row)
  }

  function GroupRows(r: Resolver, rows: seq<RttRow>): Groups {
    Fold(Step(r), map[], rows)
  }

  lemma RowsCommute(r: Resolver)
    ensures StepsCommute(Step(r))
  {
    forall g, x: RttRow, y: RttRow
      ensures Step(r)(Step(r)(g, x), y) == Step(r)(Step(r)(g, y), x)
    {
      AddToCommutes(g, KeyOf(r, x.id), x.val, KeyOf(r, y.id), y.val);
    }
  }

  /** The order in which the rows arrive is immaterial. */
  lemma GroupsPermute(r: Resolver, rows: seq<RttRow>, rows': seq<RttRow>)
    requires multiset(rows) == multiset(rows')
    ensures GroupRows(r, rows) == GroupRows(r, rows')
  {
    RowsCommute(r);
    FoldPermutes(Step(r), map[], rows, rows');
  }

  /** The non-empty values recorded for one pair. */
  function ValuesOf(r: Resolver, rows: seq<RttRow>, pk: string): seq<RttVal> {
    if rows == [] then [] else
      var init, last := rows[..|rows| - 1], rows[|rows| - 1];
      ValuesOf(r, init, pk) +
      (if last.val.count != 0 && KeyOf(r, last.id) == pk then [last.val] else [])
  }

  lemma AddRowAt(r: Resolver, g: Groups, row: RttRow, pk: string)
    ensures row.val.count != 0 && KeyOf(r, row.id) == pk ==>
              && pk in AddRow(r, g, row) && NUL in pk
              && AddRow(r, g, row)[pk] == Merge(if pk in g then g[pk] else ZERO, row.val)
    ensures row.val.count == 0 || KeyOf(r, row.id) != pk ==>
              && (pk in AddRow(r, g, row) <==> pk in g)
              && (pk in g ==> AddRow(r, g, row)[pk] == g[pk])
  {
    assert KeyOf(r, row.id)[|r(row.id.srcIp)|] == NUL;
  }

  /** Each group is the merge of the values of its pair, and there is a group for each pair with a value. */
  lemma {:induction false} GroupIsMerge(r: Resolver, rows: seq<RttRow>, pk: string)
    ensures pk in GroupRows(r, rows) <==> ValuesOf(r, rows, pk) != []
    ensures pk in GroupRows(r, rows) ==> NUL in pk
    ensures pk in GroupRows(r, rows) ==> GroupRows(r, rows)[pk] == MergeAll(ValuesOf(r, rows, pk))
    decreases |rows|
  {
    if rows != [] {
      var init, last := rows[..|rows| - 1], rows[|rows| - 1];
      GroupIsMerge(r, init, pk);
      AddRowAt(r, GroupRows(r, init), last, pk);
      MergeAllSnoc(ValuesOf(r, init, pk), last.val);
      assert ValuesOf(r, init, pk) + [] == ValuesOf(r, init, pk);
    }
  }
}
