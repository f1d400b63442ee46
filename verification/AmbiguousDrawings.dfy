/** When two graphs have the same drawing: for all names that have one line, exactly. */
module AmbiguousDrawings {
  import opened Folds
  import opened Strings
  import opened ServiceGraph
  import opened AsciiMap

  // Destinations with a count behind them.

  /** Drawn once, this destination looks like the other one with its count written behind it. */
  predicate Imitates(o: Out, o': Out) {
    o.count == 1 && o'.count > 1 && o.dst == o'.dst + CountText(o'.count)
  }

  predicate Confusable(o: Out, o': Out) {
    o == o' || Imitates(o, o') || Imitates(o', o)
  }

  ghost predicate LastParenthesis(s: string, k: nat) {
    k < |s| && s[k] == '(' && forall j :: k < j < |s| ==> s[j] != '('
  }

  lemma BeforeDigits(a: string, n: nat)
    ensures LastParenthesis(a + ['('] + Decimal(n), |a|)
  {
    hide Decimal;
    var s := a + ['('] + Decimal(n);
    forall j | |a| < j < |s| ensures s[j] != '(' {
      assert s[j] == Decimal(n)[j - |a| - 1];
    }
  }

  lemma DigitsEndAlike(a: string, b: string, n: nat, m: nat)
    requires a + ['('] + Decimal(n) == b + ['('] + Decimal(m)
    ensures a == b && n == m
  {
    hide Decimal;
    var s := a + ['('] + Decimal(n);
    BeforeDigits(a, n);
    BeforeDigits(b, m);
    assert |a| == |b|;
    assert a == s[..|a|] && b == s[..|a|];
    assert Decimal(n) == s[|a| + 1..] && Decimal(m) == s[|a| + 1..];
    DecimalRoundTrip(n);
    DecimalRoundTrip(m);
  }

  lemma SamePrefix(a: string, b: string, tail: string)
    requires a + tail == b + tail
    ensures a == b
  {
    assert a == (a + tail)[..|a + tail| - |tail|] && b == (b + tail)[..|b + tail| - |tail|];
  }

  lemma LabelShape(o: Out)
    requires o.count > 1
    ensures Label(o) == (o.dst + "  " + ['('] + Decimal(o.count)) + " connections)"
  {
    hide Decimal;
    var d := Decimal(o.count);
    assert "  (" == "  " + ['('];
    assert o.dst + ("  " + ['('] + d + " connections)") == (o.dst + "  " + ['('] + d) + " connections)";
  }

  lemma CountedLabels(o: Out, o': Out)
    requires o.count > 1 && o'.count > 1 && Label(o) == Label(o')
    ensures o == o'
  {
    hide Decimal, Label;
    LabelShape(o);
    LabelShape(o');
    SamePrefix(o.dst + "  " + ['('] + Decimal(o.count), o'.dst + "  " + ['('] + Decimal(o'.count), " connections)");
    DigitsEndAlike(o.dst + "  ", o'.dst + "  ", o.count, o'.count);
    SamePrefix(o.dst, o'.dst, "  ");
  }

  /** Two edges are written alike exactly when they are equal or one imitates the other. */
  lemma LabelsCollideIff(o: Out, o': Out)
    requires o.count > 0 && o'.count > 0
    ensures Label(o) == Label(o') <==> Confusable(o, o')
  {
    hide CountText;
    assert o.dst + "" == o.dst && o'.dst + "" == o'.dst;
    if o.count > 1 && o'.count > 1 && Label(o) == Label(o') {
      CountedLabels(o, o');
    }
  }

  // Sources that hold an arrow.

  lemma LabelBehind(before: string, o: Out)
    ensures Label(Out(before + o.dst, o.count)) == before + Label(o)
  {
    hide CountText;
    assert before + o.dst + CountText(o.count) == before + (o.dst + CountText(o.count));
  }

  /** The longer source holds the arrow that the shorter one is followed by, or all but the blank at
      its end; what is left of it has moved to the front of the other destination. */
  predicate Shifts(src: string, o: Out, src': string, o': Out) {
    |src| < |src'| && src <= src' &&
    var t := src'[|src|..];
    || (ARROW <= t && Confusable(o, Out(t[5..] + ARROW + o'.dst, o'.count)))
    || (t == ARROW[..4] && Confusable(o, Out(ARROW[1..] + o'.dst, o'.count)))
  }

  /** An arrow can overlap another one only in the blank at its end. */
  lemma Overlap(t: string, l: string, l': string)
    requires 0 < |t| < 5
    ensures ARROW + l == t + ARROW + l' <==> t == ARROW[..4] && l == ARROW[1..] + l'
  {
    var left, right := ARROW + l, t + ARROW + l';
    if left == right {
      assert forall i :: 0 <= i < |t| ==> t[i] == right[i] == left[i] == ARROW[i];
      assert left[|t|] == ARROW[|t|] && right[|t|] == ARROW[0];
      assert |t| == 4;
      assert l == left[5..] == right[5..] == ARROW[1..] + l';
    }
    if t == ARROW[..4] && l == ARROW[1..] + l' {
      assert ARROW == ARROW[..4] + [' '] && ARROW == [' '] + ARROW[1..];
      assert left == ARROW[..4] + ([' '] + ARROW[1..]) + l';
    }
  }

  lemma NoOverlap(t: string, l: string, l': string)
    requires |t| >= 5
    ensures ARROW + l == t + ARROW + l' <==> ARROW <= t && l == t[5..] + ARROW + l'
  {
    var left, right := ARROW + l, t + ARROW + l';
    if left == right {
      assert t[..5] == right[..5] == left[..5] == ARROW;
      assert l == left[5..] == right[5..] == t[5..] + ARROW + l';
    }
    if ARROW <= t && l == t[5..] + ARROW + l' {
      assert t == ARROW + t[5..];
    }
  }

  lemma ShiftsIff(src: string, o: Out, src': string, o': Out)
    requires |src| < |src'| && o.count > 0 && o'.count > 0
    ensures src + ARROW + Label(o) == src' + ARROW + Label(o') <==> Shifts(src, o, src', o')
  {
    hide Label, Confusable;
    if src <= src' {
      var t := src'[|src|..];
      assert src' == src + t;
      SameRest(src, ARROW + Label(o), t + ARROW + Label(o'));
      assert src + (ARROW + Label(o)) == src + ARROW + Label(o);
      assert src + (t + ARROW + Label(o')) == src' + ARROW + Label(o');
      if |t| < 5 {
        Overlap(t, Label(o), Label(o'));
        LabelBehind(ARROW[1..], o');
        LabelsCollideIff(o, Out(ARROW[1..] + o'.dst, o'.count));
      } else {
        NoOverlap(t, Label(o), Label(o'));
        LabelBehind(t[5..] + ARROW, o');
        LabelsCollideIff(o, Out(t[5..] + ARROW + o'.dst, o'.count));
      }
    } else {
      DifferentStart(src, ARROW + Label(o), src', ARROW + Label(o'));
      assert src + (ARROW + Label(o)) == src + ARROW + Label(o);
      assert src' + (ARROW + Label(o')) == src' + ARROW + Label(o');
    }
  }

  lemma SameRest(a: string, b: string, c: string)
    ensures a + b == a + c <==> b == c
  {
    assert b == (a + b)[|a|..] && c == (a + c)[|a|..];
  }

  lemma DifferentStart(a: string, b: string, a': string, b': string)
    requires |a| <= |a'| && !(a <= a')
    ensures a + b != a' + b'
  {
    assert a == (a + b)[..|a|];
    assert a'[..|a|] == (a' + b')[..|a|];
  }

  /** Two edges of sources with one destination look the same. */
  predicate SameEdge(src: string, o: Out, src': string, o': Out) {
    (src == src' && Confusable(o, o')) || Shifts(src, o, src', o') || Shifts(src', o', src, o)
  }

  lemma SameEdgeIff(src: string, o: Out, src': string, o': Out)
    requires o.count > 0 && o'.count > 0
    ensures src + ARROW + Label(o) == src' + ARROW + Label(o') <==> SameEdge(src, o, src', o')
  {
    hide Label, Confusable;
    if |src| < |src'| {
      ShiftsIff(src, o, src', o');
    } else if |src'| < |src| {
      ShiftsIff(src', o', src, o);
    } else {
      assert src + (ARROW + Label(o)) == src + ARROW + Label(o);
      assert src' + (ARROW + Label(o')) == src' + ARROW + Label(o');
      if src == src' {
        SameRest(src, ARROW + Label(o), ARROW + Label(o'));
        SameRest(ARROW, Label(o), Label(o'));
        LabelsCollideIff(o, o');
      } else {
        DifferentStart(src, ARROW + Label(o), src', ARROW + Label(o'));
      }
    }
  }

  // Blocks: the rows of the drawing.

  /** Two rows look the same. */
  ghost predicate SameBlock(row: Row, row': Row) {
    && |row.outs| == |row'.outs|
    && if |row.outs| == 1 then SameEdge(row.src, row.outs[0], row'.src, row'.outs[0])
       else row.src == row'.src && forall j :: 0 <= j < |row.outs| ==> Confusable(row.outs[j], row'.outs[j])
  }

  ghost predicate Drawn(row: Row) {
    row.outs != [] && forall j :: 0 <= j < |row.outs| ==> row.outs[j].count > 0
  }

  /** As in every graph: no row without destinations, no destination without a call, and at most the
      first source is empty. */
  ghost predicate DrawnRows(rows: seq<Row>) {
    forall i :: 0 <= i < |rows| ==> Drawn(rows[i]) && (rows[i].src == "" ==> i == 0)
  }

  lemma SameBlockIff(row: Row, row': Row)
    requires Drawn(row) && Drawn(row')
    ensures RowLines(row) == RowLines(row') <==> SameBlock(row, row')
  {
    hide Label, SameEdge;
    assert |RowLines(row)| == if |row.outs| == 1 then 1 else 1 + |row.outs|;
    assert |RowLines(row')| == if |row'.outs| == 1 then 1 else 1 + |row'.outs|;
    if |row.outs| == |row'.outs| == 1 {
      SameEdgeIff(row.src, row.outs[0], row'.src, row'.outs[0]);
      assert RowLines(row)[0] == row.src + ARROW + Label(row.outs[0]);
      assert RowLines(row')[0] == row'.src + ARROW + Label(row'.outs[0]);
    } else if |row.outs| == |row'.outs| {
      SameTreeIff(row, row');
    }
  }

  lemma SameTreeIff(row: Row, row': Row)
    requires Drawn(row) && Drawn(row') && |row.outs| == |row'.outs| > 1
    ensures RowLines(row) == RowLines(row') <==> SameBlock(row, row')
  {
    hide Label, Confusable;
    var n := |row.outs|;
    var ls, ls' := ChildLines(row.outs, n), ChildLines(row'.outs, n);
    SameRestOfLines(row.src, ls, row'.src, ls');
    forall j | 0 <= j < n ensures ls[j] == ls'[j] <==> Confusable(row.outs[j], row'.outs[j]) {
      LabelsCollideIff(row.outs[j], row'.outs[j]);
      SameRest(if j == n - 1 then ELBOW else TEE, Label(row.outs[j]), Label(row'.outs[j]));
    }
  }

  lemma SameRestOfLines(header: string, ls: seq<string>, header': string, ls': seq<string>)
    ensures [header] + ls == [header'] + ls' <==> header == header' && ls == ls'
  {
    assert ls == ([header] + ls)[1..] && ls' == ([header'] + ls')[1..];
    assert ([header] + ls)[0] == header && ([header'] + ls')[0] == header';
  }

  // The empty lines between the blocks.

  /** Line `k` is the last empty line, not counting the first line of all. */
  ghost predicate LastGap(lines: seq<string>, k: nat) {
    0 < k < |lines| && lines[k] == "" && forall j :: k < j < |lines| ==> lines[j] != ""
  }

  lemma NoEmptyLine(row: Row)
    requires Drawn(row)
    ensures RowLines(row) != []
    ensures forall j :: 0 < j < |RowLines(row)| ==> RowLines(row)[j] != ""
    ensures row.src != "" ==> RowLines(row)[0] != ""
  {
    hide Label;
  }

  lemma NoLines(rows: seq<Row>)
    requires DrawnRows(rows)
    ensures Lines(rows) == [] <==> rows == []
  {
    if rows != [] {
      NoEmptyLine(rows[|rows| - 1]);
    }
  }

  lemma OneBlock(rows: seq<Row>, k: nat)
    requires DrawnRows(rows) && |rows| == 1
    ensures Lines(rows) == RowLines(rows[0]) && !LastGap(Lines(rows), k)
  {
    NoEmptyLine(rows[0]);
    assert rows[..0] == [];
  }

  lemma GapAt(rows: seq<Row>)
    requires DrawnRows(rows) && |rows| > 1
    ensures
      var n := |rows| - 1;
      && Lines(rows) == Lines(rows[..n]) + [""] + RowLines(rows[n])
      && LastGap(Lines(rows), |Lines(rows[..n])|)
  {
    hide RowLines;
    var n := |rows| - 1;
    NoLines(rows[..n]);
    NoEmptyLine(rows[n]);
  }

  lemma LastGapUnique(lines: seq<string>, k: nat, l: nat)
    requires LastGap(lines, k) && LastGap(lines, l)
    ensures k == l
  {
  }

  ghost predicate Alike(rows: seq<Row>, rows': seq<Row>) {
    |rows| == |rows'| && forall i :: 0 <= i < |rows| ==> SameBlock(rows[i], rows'[i])
  }

  /** The last empty line splits off the last row. */
  lemma {:induction false} LinesAlikeIff(rows: seq<Row>, rows': seq<Row>)
    requires DrawnRows(rows) && DrawnRows(rows')
    ensures Lines(rows) == Lines(rows') <==> Alike(rows, rows')
    decreases |rows|
  {
    hide RowLines, SameBlock, Lines, Drawn;
    NoLines(rows);
    NoLines(rows');
    if |rows| == 1 {
      OneBlockAlike(rows, rows');
    } else if |rows'| == 1 {
      OneBlockAlike(rows', rows);
      assert Alike(rows, rows') ==> |rows| == 1;
    } else if rows != [] && rows' != [] {
      var n, n' := |rows| - 1, |rows'| - 1;
      GapAt(rows);
      GapAt(rows');
      if Lines(rows) == Lines(rows') {
        LastGapUnique(Lines(rows), |Lines(rows[..n])|, |Lines(rows'[..n'])|);
      }
      SamePieces(Lines(rows[..n]), RowLines(rows[n]), Lines(rows'[..n']), RowLines(rows'[n']));
      LinesAlikeIff(rows[..n], rows'[..n']);
      SameBlockIff(rows[n], rows'[n']);
      AlikeSplits(rows, rows');
    }
  }

  lemma OneBlockAlike(rows: seq<Row>, rows': seq<Row>)
    requires DrawnRows(rows) && DrawnRows(rows') && |rows| == 1
    ensures Lines(rows) == Lines(rows') <==> Alike(rows, rows')
    ensures Lines(rows') == Lines(rows) ==> |rows'| == 1
  {
    hide RowLines, SameBlock, Lines, Drawn;
    NoLines(rows);
    NoLines(rows');
    OneBlock(rows, 0);
    if |rows'| == 1 {
      OneBlock(rows', 0);
      SameBlockIff(rows[0], rows'[0]);
    } else if |rows'| > 1 {
      GapAt(rows');
      OneBlock(rows, |Lines(rows'[..|rows'| - 1])|);
    }
  }

  lemma SamePieces(a: seq<string>, b: seq<string>, a': seq<string>, b': seq<string>)
    ensures |a| == |a'| ==> (a + [""] + b == a' + [""] + b' <==> a == a' && b == b')
  {
    var s, s' := a + [""] + b, a' + [""] + b';
    assert a == s[..|a|] && b == s[|a| + 1..];
    assert a' == s'[..|a'|] && b' == s'[|a'| + 1..];
  }

  lemma AlikeSplits(rows: seq<Row>, rows': seq<Row>)
    requires |rows| > 0 && |rows'| > 0
    ensures
      var n, n' := |rows| - 1, |rows'| - 1;
      Alike(rows, rows') <==> Alike(rows[..n], rows'[..n']) && SameBlock(rows[n], rows'[n'])
  {
    hide SameBlock;
    var n := |rows| - 1;
    if |rows| == |rows'| && Alike(rows[..n], rows'[..n]) && SameBlock(rows[n], rows'[n]) {
      forall i | 0 <= i < |rows| ensures SameBlock(rows[i], rows'[i]) {
        if i < n {
          assert SameBlock(rows[..n][i], rows'[..n][i]);
        }
      }
    }
  }

  /** Main result: two drawings are the same text if and only if they look the same row by row. */
  lemma DrawnAlikeIff(rows: seq<Row>, rows': seq<Row>)
    requires OneLineRows(rows) && DrawnRows(rows)
    requires OneLineRows(rows') && DrawnRows(rows')
    ensures Render(rows) == Render(rows') <==> Alike(rows, rows')
  {
    hide Render, Lines, OneLine, Drawn, SameBlock;
    RenderLines(rows);
    RenderLines(rows');
    LinesAlikeIff(rows, rows');
    NoLines(rows);
    NoLines(rows');
    if Lines(rows) == Lines(rows') {
      SameLinesSameText(rows, rows');
    }
  }

  lemma SameLinesSameText(rows: seq<Row>, rows': seq<Row>)
    requires Lines(rows) == Lines(rows') && (rows == [] <==> rows' == [])
    ensures Render(rows) == Render(rows')
  {
  }

  // Graphs.

  ghost predicate OneLineCalls(calls: seq<Pair>) {
    forall i :: 0 <= i < |calls| ==> '\n' !in calls[i].0 && '\n' !in calls[i].1
  }

  lemma FirstIsEmpty(rows: seq<Row>, i: nat)
    requires Ascending(rows, Source()) && i < |rows| && rows[i].src == ""
    ensures i == 0
  {
    NothingBelowEmpty(Source()(rows[0]));
  }

  lemma NothingBelowEmpty(a: string)
    ensures AtMost(a, "") ==> a == ""
  {
  }

  lemma Representation(calls: seq<Pair>, rows: seq<Row>)
    requires OneLineCalls(calls) && Represents(rows, CountCalls(calls))
    ensures OneLineRows(rows) && DrawnRows(rows)
  {
    hide Ascending;
    forall i | 0 <= i < |rows|
      ensures OneLine(rows[i]) && Drawn(rows[i]) && (rows[i].src == "" ==> i == 0)
    {
      assert RowFits(rows[i], CountCalls(calls));
      forall o | o in rows[i].outs ensures '\n' !in rows[i].src && '\n' !in o.dst && o.count > 0 {
        CountsAreMultiplicities(calls, (rows[i].src, o.dst));
      }
      assert rows[i].outs[0] in rows[i].outs;
      if rows[i].src == "" {
        FirstIsEmpty(rows, i);
      }
    }
  }

  /** Main result: two series of calls are drawn as one text if and only if their rows look the same,
      and as one graph if and only if their rows are the same. */
  lemma SameTextIff(calls: seq<Pair>, calls': seq<Pair>, rows: seq<Row>, rows': seq<Row>)
    requires OneLineCalls(calls) && Represents(rows, CountCalls(calls))
    requires OneLineCalls(calls') && Represents(rows', CountCalls(calls'))
    ensures Render(rows) == Render(rows') <==> Alike(rows, rows')
    ensures CountCalls(calls) == CountCalls(calls') <==> rows == rows'
  {
    hide Represents, Render, CountCalls, Alike;
    Representation(calls, rows);
    Representation(calls', rows');
    DrawnAlikeIff(rows, rows');
    EntriesGiveCounts(rows, CountCalls(calls));
    EntriesGiveCounts(rows', CountCalls(calls'));
    if CountCalls(calls) == CountCalls(calls') {
      RepresentationUnique(rows, rows', CountCalls(calls));
    }
  }

  /** The name does not end like a written count. */
  ghost predicate NoCount(name: string) {
    forall x: string, n: nat :: n > 1 ==> name != x + CountText(n)
  }

  ghost predicate Unmistakable(row: Row) {
    FindArrow(row.src + ARROW) == |row.src| && forall j :: 0 <= j < |row.outs| ==> NoCount(row.outs[j].dst)
  }

  lemma {:induction false} ArrowFound(before: string, s: string)
    requires ARROW <= s
    ensures FindArrow(before + s) <= |before|
  {
    if before == "" {
      assert before + s == s;
    } else {
      ArrowFound(before[1..], s);
      assert (before + s)[1..] == before[1..] + s;
    }
  }

  lemma NoShift(src: string, o: Out, src': string, o': Out)
    requires FindArrow(src' + ARROW) == |src'|
    ensures !Shifts(src, o, src', o')
  {
    hide Confusable, FindArrow;
    if |src| < |src'| && src <= src' {
      var t := src'[|src|..];
      assert src' == src + t;
      if ARROW <= t || t == ARROW[..4] {
        ArrowAgain(t);
        assert src' + ARROW == src + (t + ARROW);
        ArrowFound(src, t + ARROW);
      }
    }
  }

  lemma ArrowAgain(t: string)
    requires ARROW <= t || t == ARROW[..4]
    ensures ARROW <= t + ARROW
  {
    PrefixStays(ARROW, t, ARROW);
    assert ARROW == ARROW[..4] + [' '];
  }

  lemma UnmistakableRows(row: Row, row': Row)
    requires Unmistakable(row) && Unmistakable(row') && SameBlock(row, row')
    ensures row == row'
  {
    hide Shifts, CountText;
    if |row.outs| == 1 {
      NoShift(row.src, row.outs[0], row'.src, row'.outs[0]);
      NoShift(row'.src, row'.outs[0], row.src, row.outs[0]);
    }
    forall j | 0 <= j < |row.outs| ensures row.outs[j] == row'.outs[j] {
      assert Confusable(row.outs[j], row'.outs[j]);
      assert NoCount(row.outs[j].dst) && NoCount(row'.outs[j].dst);
    }
  }

  ghost predicate UnmistakableCalls(calls: seq<Pair>) {
    forall i :: 0 <= i < |calls| ==> FindArrow(calls[i].0 + ARROW) == |calls[i].0| && NoCount(calls[i].1)
  }

  lemma UnmistakableRepresentation(calls: seq<Pair>, rows: seq<Row>, i: nat)
    requires UnmistakableCalls(calls) && Represents(rows, CountCalls(calls)) && i < |rows|
    ensures Unmistakable(rows[i])
  {
    hide Ascending, NoCount;
    assert RowFits(rows[i], CountCalls(calls));
    forall o | o in rows[i].outs ensures FindArrow(rows[i].src + ARROW) == |rows[i].src| && NoCount(o.dst) {
      CountsAreMultiplicities(calls, (rows[i].src, o.dst));
    }
    assert rows[i].outs[0] in rows[i].outs;
  }

  /** Among names of which no source holds an arrow and no destination ends like a count, blanks or
      not, different graphs have different drawings. */
  lemma UnmistakableNamesTellApart(calls: seq<Pair>, calls': seq<Pair>, rows: seq<Row>, rows': seq<Row>)
    requires OneLineCalls(calls) && Represents(rows, CountCalls(calls)) && UnmistakableCalls(calls)
    requires OneLineCalls(calls') && Represents(rows', CountCalls(calls')) && UnmistakableCalls(calls')
    ensures Render(rows) == Render(rows') <==> CountCalls(calls) == CountCalls(calls')
  {
    hide Represents, Render, CountCalls, SameBlock, Unmistakable;
    SameTextIff(calls, calls', rows, rows');
    if Alike(rows, rows') {
      forall i | 0 <= i < |rows| ensures rows[i] == rows'[i] {
        UnmistakableRepresentation(calls, rows, i);
        UnmistakableRepresentation(calls', rows', i);
        UnmistakableRows(rows[i], rows'[i]);
      }
    }
    if rows == rows' {
      EqualText(rows, rows');
    }
  }

  lemma EqualText(rows: seq<Row>, rows': seq<Row>)
    requires rows == rows'
    ensures Render(rows) == Render(rows')
  {
  }

  // Two graphs, one drawing.

  const IMITATION: string := "b  (2 connections)"

  lemma ImitatesTwo()
    ensures Imitates(Out(IMITATION, 1), Out("b", 2))
  {
    assert Decimal(2) == "2";
  }

  lemma CountsOfOne(p: Pair)
    ensures CountCalls([p]) == map[p := 1] && CountCalls([p, p]) == map[p := 2]
  {
    FoldNext(AddCall, map[], [p, p], 0);
    FoldNext(AddCall, map[], [p, p], 1);
    assert [p, p][..1] == [p] && [p, p][..2] == [p, p];
  }

  /** One call of a destination with blanks, and two calls of another: two graphs, one drawing. */
  lemma BlanksAreAmbiguous(src: string)
    ensures
      var once, twice := CountCalls([(src, IMITATION)]), CountCalls([(src, "b"), (src, "b")]);
      var rows, rows' := [Row(src, [Out(IMITATION, 1)])], [Row(src, [Out("b", 2)])];
      && Represents(rows, once) && Represents(rows', twice)
      && once != twice && Render(rows) == Render(rows')
  {
    hide Represents, Render, Label;
    var long, short := Out(IMITATION, 1), Out("b", 2);
    CountsOfOne((src, IMITATION));
    CountsOfOne((src, "b"));
    SingleRow(src, long);
    SingleRow(src, short);
    ImitatesTwo();
    LabelsCollideIff(long, short);
    assert |IMITATION| != |"b"|;
    assert (src, "b") !in map[(src, IMITATION) := 1];
  }

  /** An arrow within a source can as well stand before the destination: two graphs, one drawing. */
  lemma ArrowsAreAmbiguous(src: string, mid: string, dst: string)
    ensures
      var left, right := (src + ARROW + mid, dst), (src, mid + ARROW + dst);
      var rows, rows' := [Row(left.0, [Out(left.1, 1)])], [Row(right.0, [Out(right.1, 1)])];
      && Represents(rows, CountCalls([left])) && Represents(rows', CountCalls([right]))
      && CountCalls([left]) != CountCalls([right]) && Render(rows) == Render(rows')
  {
    hide Represents, Render;
    var left, right := (src + ARROW + mid, dst), (src, mid + ARROW + dst);
    CountsOfOne(left);
    CountsOfOne(right);
    SingleRow(left.0, Out(left.1, 1));
    SingleRow(right.0, Out(right.1, 1));
    assert left.0 + ARROW + dst == src + ARROW + (mid + ARROW + dst);
    assert dst + "" == dst && right.1 + "" == right.1;
    assert |left.0| != |right.0|;
    assert left !in map[right := 1];
  }
}
