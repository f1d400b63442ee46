/** The text drawing of the dependency graph, and a reader that recovers the graph from it. */
module AsciiMap {
  import opened Folds
  import Sums
  import opened Sorting
  import opened Strings
  import opened ServiceGraph

  // Text in byte order.

  predicate AtMost(a: string, b: string) {
    a == "" || (b != "" && (a[0] < b[0] || (a[0] == b[0] && AtMost(a[1..], b[1..]))))
  }

  lemma {:induction false} AtMostTotal(a: string, b: string)
    ensures AtMost(a, b) || AtMost(b, a)
    ensures AtMost(a, b) && AtMost(b, a) ==> a == b
  {
    if a != "" && b != "" && a[0] == b[0] {
      AtMostTotal(a[1..], b[1..]);
      assert a == [a[0]] + a[1..] && b == [b[0]] + b[1..];
    }
  }

  lemma {:induction false} AtMostTransitive(a: string, b: string, c: string)
    requires AtMost(a, b) && AtMost(b, c)
    ensures AtMost(a, c)
  {
    if a != "" && b != "" && c != "" && a[0] == b[0] == c[0] {
      AtMostTransitive(a[1..], b[1..], c[1..]);
    }
  }

  // The rows of the drawing.

  datatype Out = Out(dst: string, count: nat)

  datatype Row = Row(src: string, outs: seq<Out>)

  datatype Entry = Entry(src: string, dst: string, count: nat)

  function RowEntries(src: string, outs: seq<Out>): seq<Entry> {
    seq(|outs|, i requires 0 <= i < |outs| => Entry(src, outs[i].dst, outs[i].count))
  }

  function Entries(rows: seq<Row>): seq<Entry> {
    if rows == [] then [] else
      var last := rows[|rows| - 1];
      Entries(rows[..|rows| - 1]) + RowEntries(last.src, last.outs)
  }

  // Rendering.

  const TEE: string := "  \U{251C}\U{2500}\U{2192} "
  const ELBOW: string := "  \U{2514}\U{2500}\U{2192} "
  const ARROW: string := " \U{2500}\U{2500}\U{2192} "

  function CountText(count: nat): string {
    "  (" + Decimal(count) + " connections)"
  }

  function Label(o: Out): string {
    o.dst + (if o.count > 1 then CountText(o.count) else "")
  }

  function ChildLines(outs: seq<Out>, n: nat): (lines: seq<string>)
    requires n <= |outs|
  {
    seq(n, i requires 0 <= i < n => (if i == |outs| - 1 then ELBOW else TEE) + Label(outs[i]))
  }

  function RowLines(row: Row): seq<string> {
    if |row.outs| == 1 then [row.src + ARROW + Label(row.outs[0])]
    else [row.src] + ChildLines(row.outs, |row.outs|)
  }

  function Lines(rows: seq<Row>): seq<string> {
    if rows == [] then [] else
      var n := |rows| - 1;
      Lines(rows[..n]) + (if n > 0 then [""] else []) + RowLines(rows[n])
  }

  function Text(lines: seq<string>): string {
    if lines == [] then "" else lines[0] + ['\n'] + Text(lines[1..])
  }

  const NO_EDGES: string := "(no edges)"

  function Render(rows: seq<Row>): string {
    if rows == [] then NO_EDGES else Text(Lines(rows))
  }

  lemma {:induction false} TextConcat(a: seq<string>, b: seq<string>)
    ensures Text(a + b) == Text(a) + Text(b)
  {
    if a == [] {
      assert a + b == b;
    } else {
      TextConcat(a[1..], b);
      assert (a + b)[1..] == a[1..] + b;
    }
  }

  // Reading the text back.

  function SplitLines(text: string): seq<string>
    decreases |text|
  {
    var i := FirstIndex(text, '\n');
    if text == "" then [] else if i == |text| then [text] else [text[..i]] + SplitLines(text[i + 1..])
  }

  /** A source and what is written behind its arrows. */
  datatype Block = Block(src: string, labels: seq<string>)

  /** The first arrow of a line, or the length of the line. */
  function FindArrow(s: string): (i: nat)
    ensures i == |s| || i + 5 <= |s|
  {
    if s == "" || ARROW <= s then 0 else 1 + FindArrow(s[1..])
  }

  function AddLabel(blocks: seq<Block>, written: string): seq<Block>
    requires blocks != []
  {
    var n := |blocks| - 1;
    blocks[n := blocks[n].(labels := blocks[n].labels + [written])]
  }

  function ReadLine(blocks: seq<Block>, line: string): seq<Block> {
    if line == "" then
      if blocks == [] then [Block("", [])] else blocks
    else if TEE <= line || ELBOW <= line then
      if blocks == [] then blocks else AddLabel(blocks, line[6..])
    else
      var i := FindArrow(line);
      blocks + [if i == |line| then Block(line, []) else Block(line[..i], [line[i + 5..]])]
  }

  function ReadBlocks(text: string): seq<Block> {
    if text == NO_EDGES then [] else Fold(ReadLine, [], SplitLines(text))
  }

  /** The destination and count written behind an arrow. */
  function ReadLabel(s: string): Out {
    var i := FirstIndex(s, ' ');
    if i == |s| then Out(s, 1)
    else if |s| < i + 3 then Out(s[..i], 0)
    else
      var rest := s[i + 3..];
      Out(s[..i], Number(rest[..FirstIndex(rest, ' ')]))
  }

  function LabelEntries(src: string, labels: seq<string>): seq<Entry> {
    seq(|labels|, i requires 0 <= i < |labels| =>
      Entry(src, ReadLabel(labels[i]).dst, ReadLabel(labels[i]).count))
  }

  function BlockEntries(blocks: seq<Block>): seq<Entry> {
    if blocks == [] then [] else
      var last := blocks[|blocks| - 1];
      BlockEntries(blocks[..|blocks| - 1]) + LabelEntries(last.src, last.labels)
  }

  function Decode(text: string): seq<Entry> {
    BlockEntries(ReadBlocks(text))
  }

  // The reader undoes the drawing.

  predicate OneLine(row: Row) {
    '\n' !in row.src && forall j :: 0 <= j < |row.outs| ==> '\n' !in row.outs[j].dst
  }

  ghost predicate OneLineRows(rows: seq<Row>) {
    forall i :: 0 <= i < |rows| ==> OneLine(rows[i])
  }

  /** A source that does not form an arrow earlier than the one behind it, and does not begin like a
      branch. */
  predicate Readable(src: string) {
    FindArrow(src + ARROW) == |src| && !(TEE <= src + ARROW) && !(ELBOW <= src + ARROW)
  }

  ghost predicate ReadableRows(rows: seq<Row>) {
    OneLineRows(rows) &&
    forall i :: 0 <= i < |rows| ==> Readable(rows[i].src) && (rows[i].src == "" ==> i == 0)
  }

  /** A name that also can be told apart from a count behind it. */
  predicate Plain(name: string) {
    name != "" && ' ' !in name && '\n' !in name
  }

  predicate PlainOuts(outs: seq<Out>) {
    forall i :: 0 <= i < |outs| ==> Plain(outs[i].dst) && outs[i].count > 0
  }

  predicate PlainRows(rows: seq<Row>) {
    forall i :: 0 <= i < |rows| ==> Plain(rows[i].src) && rows[i].outs != [] && PlainOuts(rows[i].outs)
  }

  function Labels(outs: seq<Out>): (labels: seq<string>)
    ensures |labels| == |outs| && forall i :: 0 <= i < |labels| ==> labels[i] == Label(outs[i])
  {
    seq(|outs|, i requires 0 <= i < |outs| => Label(outs[i]))
  }

  function BlocksOf(rows: seq<Row>): (blocks: seq<Block>)
    ensures |blocks| == |rows|
    ensures forall i :: 0 <= i < |blocks| ==> blocks[i] == Block(rows[i].src, Labels(rows[i].outs))
  {
    seq(|rows|, i requires 0 <= i < |rows| => Block(rows[i].src, Labels(rows[i].outs)))
  }

  lemma {:induction false} SplitText(lines: seq<string>)
    requires forall i :: 0 <= i < |lines| ==> '\n' !in lines[i]
    ensures SplitLines(Text(lines)) == lines
  {
    if lines != [] {
      FirstIndexAt(lines[0], '\n', Text(lines[1..]));
      SplitText(lines[1..]);
    }
  }

  lemma LabelTail(o: Out)
    requires o.count > 1
    ensures Label(o) == o.dst + [' '] + (" (" + (Decimal(o.count) + " connections)"))
  {
    hide Decimal;
    assert "  (" == [' '] + " (";
  }

  lemma LabelParts(o: Out)
    requires Plain(o.dst) && o.count > 1
    ensures FirstIndex(Label(o), ' ') == |o.dst| && |o.dst| + 3 <= |Label(o)|
    ensures Label(o)[..|o.dst|] == o.dst
    ensures Label(o)[|o.dst| + 3..] == Decimal(o.count) + [' '] + "connections)"
  {
    hide Decimal, FirstIndex, Label;
    var tail := " (" + (Decimal(o.count) + " connections)");
    LabelTail(o);
    FirstIndexAt(o.dst, ' ', tail);
    assert tail[2..] == Decimal(o.count) + " connections)";
    assert Label(o)[|o.dst| + 3..] == Label(o)[|o.dst| + 1..][2..];
  }

  lemma LabelRoundTrip(o: Out)
    requires Plain(o.dst) && o.count > 0
    ensures ReadLabel(Label(o)) == o
  {
    hide Decimal, FirstIndex, Number;
    if o.count == 1 {
      assert Label(o) == o.dst;
      FirstIndexNone(o.dst, ' ');
    } else {
      LabelParts(o);
      DecimalPlain(o.count, ' ');
      DecimalRoundTrip(o.count);
      FirstIndexAt(Decimal(o.count), ' ', "connections)");
    }
  }

  lemma LabelOneLine(o: Out)
    requires '\n' !in o.dst
    ensures '\n' !in Label(o)
  {
    DecimalPlain(o.count, '\n');
  }

  lemma PrefixStays(a: string, s: string, t: string)
    ensures a <= s ==> a <= s + t
    ensures a <= s + t && |a| <= |s| ==> a <= s
  {
  }

  /** What follows the arrow makes no difference, and without one there is none. */
  lemma {:induction false} ArrowAt(name: string, tail: string)
    requires FindArrow(name + ARROW) == |name|
    ensures FindArrow(name + ARROW + tail) == |name|
    ensures FindArrow(name) == |name|
  {
    var s := name + ARROW + tail;
    if name != "" {
      assert (name + ARROW)[1..] == name[1..] + ARROW;
      ArrowAt(name[1..], tail);
      assert s[1..] == name[1..] + ARROW + tail;
      PrefixStays(ARROW, name + ARROW, tail);
      PrefixStays(ARROW, name, ARROW);
    }
  }

  lemma NotPrefix(a: string, s: string, i: nat)
    requires i < |a| && (i < |s| ==> s[i] != a[i])
    ensures !(a <= s)
  {
  }

  lemma {:induction false} NoEarlyArrow(name: string)
    requires ' ' !in name || ARROW[1] !in name
    ensures FindArrow(name + ARROW) == |name|
  {
    if name != "" {
      NoEarlyArrow(name[1..]);
      assert (name + ARROW)[1..] == name[1..] + ARROW;
      NotPrefix(ARROW, name + ARROW, if ' ' in name then 1 else 0);
    }
  }

  /** Names that lack one of the two characters with which an arrow begins are readable. */
  lemma ClearIsReadable(name: string)
    requires ' ' !in name || ARROW[1] !in name
    ensures Readable(name)
  {
    NoEarlyArrow(name);
    var line := name + ARROW;
    var i := if name != "" && ' ' !in name then 0 else if |name| < 3 then 2 else 3;
    assert i < |name| ==> line[i] == name[i];
    assert |name| == 0 ==> line[2] == ARROW[2];
    assert |name| == 1 ==> line[2] == ARROW[1];
    assert |name| == 2 ==> line[2] == ARROW[0];
    assert |name| == 3 ==> line[3] == ARROW[0];
    NotPrefix(TEE, line, i);
    NotPrefix(ELBOW, line, i);
  }

  lemma ReadHeader(blocks: seq<Block>, src: string)
    requires Readable(src) && (src == "" ==> blocks == [])
    ensures ReadLine(blocks, src) == blocks + [Block(src, [])]
  {
    ArrowAt(src, "");
    PrefixStays(TEE, src, ARROW);
    PrefixStays(ELBOW, src, ARROW);
  }

  lemma ReadChild(blocks: seq<Block>, written: string, last: bool)
    requires blocks != []
    ensures ReadLine(blocks, (if last then ELBOW else TEE) + written) == AddLabel(blocks, written)
  {
    var line := (if last then ELBOW else TEE) + written;
    assert line[6..] == written;
  }

  lemma ReadSingle(blocks: seq<Block>, src: string, written: string)
    requires Readable(src)
    ensures ReadLine(blocks, src + ARROW + written) == blocks + [Block(src, [written])]
  {
    var start, line := src + ARROW, src + ARROW + written;
    ArrowAt(src, written);
    assert |start| >= 6 ==> line[..6] == start[..6];
    assert |start| < 6 ==> line[1] == ARROW[1];
    assert line[..|src|] == src && line[|src| + 5..] == written;
  }

  lemma {:induction false} ReadChildren(blocks: seq<Block>, src: string, outs: seq<Out>, n: nat)
    requires n <= |outs|
    ensures Fold(ReadLine, blocks + [Block(src, [])], ChildLines(outs, n)) == blocks + [Block(src, Labels(outs[..n]))]
  {
    hide ReadLine, Label;
    if n > 0 {
      ReadChildren(blocks, src, outs, n - 1);
      assert ChildLines(outs, n)[..n - 1] == ChildLines(outs, n - 1);
      ReadChild(blocks + [Block(src, Labels(outs[..n - 1]))], Label(outs[n - 1]), n == |outs|);
      assert Labels(outs[..n]) == Labels(outs[..n - 1]) + [Label(outs[n - 1])];
    }
  }

  lemma ReadRow(blocks: seq<Block>, row: Row)
    requires Readable(row.src) && (row.src == "" ==> blocks == [])
    ensures Fold(ReadLine, blocks, RowLines(row)) == blocks + [Block(row.src, Labels(row.outs))]
  {
    hide ReadLine, Label, Readable;
    if |row.outs| == 1 {
      ReadSingle(blocks, row.src, Label(row.outs[0]));
      FoldOne(blocks, row.src + ARROW + Label(row.outs[0]));
      assert Labels(row.outs) == [Label(row.outs[0])];
    } else {
      FoldConcat(ReadLine, blocks, [row.src], ChildLines(row.outs, |row.outs|));
      ReadHeader(blocks, row.src);
      FoldOne(blocks, row.src);
      ReadChildren(blocks, row.src, row.outs, |row.outs|);
      assert row.outs[..|row.outs|] == row.outs;
    }
  }

  lemma FoldOne(blocks: seq<Block>, line: string)
    ensures Fold(ReadLine, blocks, [line]) == ReadLine(blocks, line)
  {
    FoldNext(ReadLine, blocks, [line], 0);
    assert [line][..1] == [line];
  }

  lemma {:induction false} ReadRows(rows: seq<Row>)
    requires ReadableRows(rows)
    ensures Fold(ReadLine, [], Lines(rows)) == BlocksOf(rows)
    decreases |rows|
  {
    hide ReadLine, RowLines, Readable, OneLine;
    if rows != [] {
      var n := |rows| - 1;
      var start: seq<Block>, gap := [], if n > 0 then [""] else [];
      ReadRows(rows[..n]);
      FoldConcat(ReadLine, start, Lines(rows[..n]), gap);
      var before := Fold(ReadLine, start, Lines(rows[..n]));
      ReadGap(before, gap);
      FoldConcat(ReadLine, start, Lines(rows[..n]) + gap, RowLines(rows[n]));
      ReadRow(before, rows[n]);
    }
  }

  lemma ReadGap(blocks: seq<Block>, gap: seq<string>)
    requires gap == [] || (gap == [""] && blocks != [])
    ensures Fold(ReadLine, blocks, gap) == blocks
  {
    if gap == [""] {
      FoldOne(blocks, "");
    }
  }

  lemma RowOneLine(row: Row)
    requires OneLine(row)
    ensures forall i :: 0 <= i < |RowLines(row)| ==> '\n' !in RowLines(row)[i]
  {
    hide Label;
    forall i | 0 <= i < |row.outs| ensures '\n' !in Label(row.outs[i]) {
      LabelOneLine(row.outs[i]);
    }
    if |row.outs| != 1 {
      assert forall i :: 0 <= i < |row.outs| ==> '\n' !in ChildLines(row.outs, |row.outs|)[i];
    }
  }

  lemma {:induction false} RowsOneLine(rows: seq<Row>)
    requires OneLineRows(rows)
    ensures forall i :: 0 <= i < |Lines(rows)| ==> '\n' !in Lines(rows)[i]
    decreases |rows|
  {
    hide RowLines, OneLine;
    if rows != [] {
      RowsOneLine(rows[..|rows| - 1]);
      RowOneLine(rows[|rows| - 1]);
    }
  }

  lemma TextNeverNoEdges(lines: seq<string>)
    requires forall i :: 0 <= i < |lines| ==> '\n' !in lines[i]
    ensures Text(lines) != NO_EDGES
  {
    assert '\n' !in NO_EDGES;
    if lines != [] {
      assert Text(lines)[|lines[0]|] == '\n';
      assert '\n' in Text(lines);
    }
  }

  /** A drawing of names with one line has its lines as text. */
  lemma RenderLines(rows: seq<Row>)
    requires OneLineRows(rows)
    ensures rows == [] ==> Render(rows) == NO_EDGES
    ensures rows != [] ==> Render(rows) != NO_EDGES && SplitLines(Render(rows)) == Lines(rows)
  {
    hide Lines;
    if rows != [] {
      RowsOneLine(rows);
      TextNeverNoEdges(Lines(rows));
      SplitText(Lines(rows));
    }
  }

  /** A reader recovers every readable source and what is written behind its arrows. */
  lemma ReadRender(rows: seq<Row>)
    requires ReadableRows(rows)
    ensures ReadBlocks(Render(rows)) == BlocksOf(rows)
  {
    hide ReadLine, Lines, Render;
    RenderLines(rows);
    ReadRows(rows);
  }

  lemma PlainIsReadable(rows: seq<Row>)
    requires PlainRows(rows)
    ensures ReadableRows(rows)
  {
    hide PlainOuts, Readable, OneLine;
    forall i | 0 <= i < |rows| ensures OneLine(rows[i]) && Readable(rows[i].src) && rows[i].src != "" {
      PlainRowEntries(rows[i]);
    }
  }

  lemma {:induction false} PlainEntries(rows: seq<Row>)
    requires PlainRows(rows)
    ensures BlockEntries(BlocksOf(rows)) == Entries(rows)
    decreases |rows|
  {
    hide PlainOuts, Plain, Readable, OneLine, LabelEntries, RowEntries, Labels;
    if rows != [] {
      var n := |rows| - 1;
      PlainEntries(rows[..n]);
      assert BlocksOf(rows)[..n] == BlocksOf(rows[..n]);
      PlainRowEntries(rows[n]);
    }
  }

  lemma PlainRowEntries(row: Row)
    requires Plain(row.src) && PlainOuts(row.outs)
    ensures Readable(row.src) && OneLine(row)
    ensures LabelEntries(row.src, Labels(row.outs)) == RowEntries(row.src, row.outs)
  {
    hide Label, ReadLabel, Readable;
    ClearIsReadable(row.src);
    forall i | 0 <= i < |row.outs| ensures ReadLabel(Label(row.outs[i])) == row.outs[i] {
      LabelRoundTrip(row.outs[i]);
    }
  }

  /** Reading a drawing gives back its rows, for names without blanks and line ends. */
  lemma DecodeRender(rows: seq<Row>)
    requires PlainRows(rows)
    ensures Decode(Render(rows)) == Entries(rows)
  {
    PlainIsReadable(rows);
    PlainEntries(rows);
    ReadRender(rows);
  }

  // The rows that stand for a graph.

  ghost predicate Ascending<T(!new)>(s: seq<T>, key: T -> string) {
    forall i, j :: 0 <= i < j < |s| ==> AtMost(key(s[i]), key(s[j])) && key(s[i]) != key(s[j])
  }

  function Source(): Row -> string {
    (row: Row) => row.src
  }

  function Destination(): Out -> string {
    (o: Out) => o.dst
  }

  ghost predicate RowFits(row: Row, c: Counts) {
    && row.outs != [] && Ascending(row.outs, Destination())
    && forall o :: o in row.outs ==> (row.src, o.dst) in c && c[(row.src, o.dst)] == o.count
  }

  ghost predicate Shows(row: Row, p: Pair) {
    row.src == p.0 && exists o :: o in row.outs && o.dst == p.1
  }

  /** The sources in ascending order, each with its destinations in ascending order and their counts. */
  ghost predicate Represents(rows: seq<Row>, c: Counts) {
    && Ascending(rows, Source())
    && (forall row :: row in rows ==> RowFits(row, c))
    && (forall p :: p in c ==> exists row :: row in rows && Shows(row, p))
  }

  function ByKey<T>(key: T -> string): (T, T) -> bool {
    (a: T, b: T) => AtMost(key(a), key(b))
  }

  lemma AscendingOrdered<T(!new)>(s: seq<T>, key: T -> string)
    requires Ascending(s, key)
    ensures Ordered(s, ByKey(key)) && NoTies(s, ByKey(key))
    ensures forall i, j :: 0 <= i < j < |s| ==> s[i] != s[j]
  {
    hide AtMost;
    forall x, y | x in s && y in s && AtMost(key(x), key(y)) && AtMost(key(y), key(x)) ensures x == y {
      AtMostTotal(key(x), key(y));
      var i, j :| 0 <= i < |s| && 0 <= j < |s| && s[i] == x && s[j] == y;
    }
  }

  lemma AscendingUnique<T(!new)>(s: seq<T>, t: seq<T>, key: T -> string)
    requires Ascending(s, key) && Ascending(t, key)
    requires forall x :: x in s <==> x in t
    ensures s == t
  {
    hide Ascending;
    AscendingOrdered(s, key);
    AscendingOrdered(t, key);
    var elements := Sums.SetOf(s);
    assert Sums.IsListing(s, elements) && Sums.IsListing(t, elements);
    ListingMultiset(s, elements);
    ListingMultiset(t, elements);
    SortedUnique(s, t, ByKey(key));
  }

  lemma SameKeyOnce(rows: seq<Row>, row: Row, row': Row)
    requires Ascending(rows, Source()) && row in rows && row' in rows && row.src == row'.src
    ensures row == row'
  {
    var i :| 0 <= i < |rows| && rows[i] == row;
    var j :| 0 <= j < |rows| && rows[j] == row';
    assert Source()(rows[i]) == Source()(rows[j]);
  }

  /** A row of one representation is a row of any other. */
  lemma SharedRow(rows: seq<Row>, rows': seq<Row>, c: Counts, row: Row)
    requires Represents(rows, c) && Represents(rows', c) && row in rows
    ensures row in rows'
  {
    assert RowFits(row, c);
    var first := row.outs[0];
    assert first in row.outs;
    var row' :| row' in rows' && Shows(row', (row.src, first.dst));
    assert RowFits(row', c);
    forall o ensures o in row.outs <==> o in row'.outs {
      if o in row.outs {
        OutShared(rows', c, row, row', o);
      }
      if o in row'.outs {
        OutShared(rows, c, row', row, o);
      }
    }
    AscendingUnique(row.outs, row'.outs, Destination());
  }

  lemma OutShared(rows: seq<Row>, c: Counts, other: Row, row: Row, o: Out)
    requires Represents(rows, c) && row in rows && RowFits(other, c)
    requires other.src == row.src && o in other.outs
    ensures o in row.outs
  {
    hide Ascending;
    var p := (other.src, o.dst);
    assert p in c;
    var shown :| shown in rows && Shows(shown, p);
    SameKeyOnce(rows, shown, row);
    var o' :| o' in row.outs && o'.dst == o.dst;
    assert RowFits(row, c);
    assert o' == o;
  }

  /** The drawing of a graph does not depend on the order in which its maps are walked. */
  lemma RepresentationUnique(rows: seq<Row>, rows': seq<Row>, c: Counts)
    requires Represents(rows, c) && Represents(rows', c)
    ensures rows == rows'
  {
    hide RowFits, Shows;
    forall row ensures row in rows <==> row in rows' {
      if row in rows { SharedRow(rows, rows', c, row); }
      if row in rows' { SharedRow(rows', rows, c, row); }
    }
    AscendingUnique(rows, rows', Source());
  }

  // What the reader recovers.

  function PutEntry(c: Counts, e: Entry): Counts {
    c[(e.src, e.dst) := e.count]
  }

  function Recovered(text: string): Counts {
    Fold(PutEntry, map[], Decode(text))
  }

  lemma {:induction false} PutAll(es: seq<Entry>, c: Counts)
    requires forall i :: 0 <= i < |es| ==> (es[i].src, es[i].dst) in c && c[(es[i].src, es[i].dst)] == es[i].count
    ensures forall p :: p in Fold(PutEntry, map[], es) ==> p in c && Fold(PutEntry, map[], es)[p] == c[p]
    ensures forall i :: 0 <= i < |es| ==> (es[i].src, es[i].dst) in Fold(PutEntry, map[], es)
    decreases |es|
  {
    if es != [] {
      PutAll(es[..|es| - 1], c);
    }
  }

  lemma {:induction false} EntryOfRow(rows: seq<Row>, e: Entry)
    ensures e in Entries(rows) <==> exists row :: row in rows && row.src == e.src && Out(e.dst, e.count) in row.outs
    decreases |rows|
  {
    if rows != [] {
      var n := |rows| - 1;
      EntryOfRow(rows[..n], e);
      assert rows == rows[..n] + [rows[n]];
      var last := RowEntries(rows[n].src, rows[n].outs);
      if rows[n].src == e.src && Out(e.dst, e.count) in rows[n].outs {
        var j :| 0 <= j < |rows[n].outs| && rows[n].outs[j] == Out(e.dst, e.count);
        assert last[j] == e;
      }
      if e in last {
        var j :| 0 <= j < |last| && last[j] == e;
        assert rows[n].outs[j] == Out(e.dst, e.count);
      }
    }
  }

  lemma EntriesGiveCounts(rows: seq<Row>, c: Counts)
    requires Represents(rows, c)
    ensures Fold(PutEntry, map[], Entries(rows)) == c
  {
    hide Ascending;
    var es := Entries(rows);
    forall i | 0 <= i < |es|
      ensures (es[i].src, es[i].dst) in c && c[(es[i].src, es[i].dst)] == es[i].count
    {
      EntryOfRow(rows, es[i]);
      var row :| row in rows && row.src == es[i].src && Out(es[i].dst, es[i].count) in row.outs;
      assert RowFits(row, c);
    }
    PutAll(es, c);
    forall p | p in c ensures p in Fold(PutEntry, map[], es) {
      var row :| row in rows && Shows(row, p);
      var o :| o in row.outs && o.dst == p.1;
      EntryOfRow(rows, Entry(p.0, o.dst, o.count));
    }
  }

  ghost predicate PlainCalls(calls: seq<Pair>) {
    forall i :: 0 <= i < |calls| ==> Plain(calls[i].0) && Plain(calls[i].1)
  }

  lemma PlainRepresentation(calls: seq<Pair>, rows: seq<Row>)
    requires PlainCalls(calls) && Represents(rows, CountCalls(calls))
    ensures PlainRows(rows)
  {
    hide Ascending, Plain;
    forall i | 0 <= i < |rows|
      ensures Plain(rows[i].src) && rows[i].outs != [] && PlainOuts(rows[i].outs)
    {
      assert RowFits(rows[i], CountCalls(calls));
      forall o | o in rows[i].outs ensures Plain(rows[i].src) && Plain(o.dst) && o.count > 0 {
        CountsAreMultiplicities(calls, (rows[i].src, o.dst));
      }
      assert rows[i].outs[0] in rows[i].outs;
    }
  }

  /** Main result: for any sequence of calls with plain names, the text of the graph gives back how
      often each pair was called, and nothing else. */
  lemma DrawingIsLossless(calls: seq<Pair>, rows: seq<Row>)
    requires PlainCalls(calls) && Represents(rows, CountCalls(calls))
    ensures Recovered(Render(rows)) == CountCalls(calls)
  {
    hide Represents, Render, Decode;
    PlainRepresentation(calls, rows);
    DecodeRender(rows);
    EntriesGiveCounts(rows, CountCalls(calls));
  }

  lemma SingleRow(src: string, o: Out)
    ensures Represents([Row(src, [o])], map[(src, o.dst) := o.count])
    ensures Render([Row(src, [o])]) == Text([src + ARROW + Label(o)])
  {
    hide Label, Text;
    var row := Row(src, [o]);
    assert o in [o] && row in [row];
    assert RowFits(row, map[(src, o.dst) := o.count]) && Shows(row, (src, o.dst));
    assert [row][..0] == [];
    assert Lines([row]) == RowLines(row);
  }

  // The drawing itself.

  function ByName(): (string, string) -> bool {
    (a: string, b: string) => AtMost(a, b)
  }

  lemma NameOrders()
    ensures TotalPreorder(ByName()) && TotalPreorder(ByKey(Destination()))
  {
    hide AtMost;
    forall a, b, c
      ensures AtMost(a, b) || AtMost(b, a)
      ensures AtMost(a, b) && AtMost(b, c) ==> AtMost(a, c)
    {
      AtMostTotal(a, b);
      if AtMost(a, b) && AtMost(b, c) {
        AtMostTransitive(a, b, c);
      }
    }
  }

  type Groups = map<string, seq<Out>>

  ghost predicate DistinctOuts(outs: seq<Out>) {
    forall i, j :: 0 <= i < j < |outs| ==> outs[i].dst != outs[j].dst
  }

  /** The outgoing edges of each source, for the pairs already seen. */
  ghost predicate Grouped(g: Groups, c: Counts, seen: set<Pair>) {
    && (forall s :: s in g ==> g[s] != [] && DistinctOuts(g[s]))
    && (forall s, o :: s in g && o in g[s] ==> (s, o.dst) in seen && (s, o.dst) in c && c[(s, o.dst)] == o.count)
    && (forall p :: p in seen ==> p.0 in g && exists o :: o in g[p.0] && o.dst == p.1)
  }

  function AddOut(g: Groups, s: string, o: Out): Groups {
    g[s := (if s in g then g[s] else []) + [o]]
  }

  lemma OutsNext(outs: seq<Out>, o: Out)
    requires DistinctOuts(outs) && forall x :: x in outs ==> x.dst != o.dst
    ensures DistinctOuts(outs + [o])
    ensures forall x :: x in outs + [o] <==> x in outs || x == o
  {
  }

  lemma GroupNext(g: Groups, c: Counts, seen: set<Pair>, s: string, o: Out)
    requires Grouped(g, c, seen)
    requires (s, o.dst) !in seen && (s, o.dst) in c && c[(s, o.dst)] == o.count
    ensures Grouped(AddOut(g, s, o), c, seen + {(s, o.dst)})
  {
    var h, was := AddOut(g, s, o), if s in g then g[s] else [];
    assert forall x :: x in was ==> (s, x.dst) in seen;
    OutsNext(was, o);
    hide DistinctOuts;
    assert h == g[s := was + [o]] && o in h[s];
    forall p | p in seen + {(s, o.dst)} ensures p.0 in h && exists x: Out :: x in h[p.0] && x.dst == p.1 {
      if p in seen {
        var x: Out :| x in g[p.0] && x.dst == p.1;
        assert x in h[p.0];
      }
    }
  }

  method GroupEdges(g: Graph) returns (srcEdges: Groups)
    requires g.Valid()
    ensures Grouped(srcEdges, g.Contents, g.Contents.Keys)
  {
    hide Grouped, AddOut;
    var edges := g.Edges();
    srcEdges := map[];
    ghost var seen: set<Pair> := {};
    NothingGrouped(g.Contents);
    for i := 0 to |edges|
      invariant forall k :: 0 <= k < |edges| ==>
                  && (edges[k].source, edges[k].destination) in g.Contents
                  && edges[k].count == g.Contents[(edges[k].source, edges[k].destination)]
      invariant seen == set k | 0 <= k < i :: (edges[k].source, edges[k].destination)
      invariant Grouped(srcEdges, g.Contents, seen)
    {
      var e := edges[i];
      assert (e.source, e.destination) in g.Contents && g.Contents[(e.source, e.destination)] == e.count;
      assert (e.source, e.destination) !in seen;
      GroupNext(srcEdges, g.Contents, seen, e.source, Out(e.destination, e.count));
      srcEdges := AddOut(srcEdges, e.source, Out(e.destination, e.count));
      seen := seen + {(e.source, e.destination)};
    }
    assert seen == g.Contents.Keys;
  }

  lemma NothingGrouped(c: Counts)
    ensures Grouped(map[], c, {})
  {
  }

  lemma SortedOuts(outs: seq<Out>, sorted: seq<Out>)
    requires DistinctOuts(outs) && SortedCopy(sorted, outs, ByKey(Destination()))
    ensures Ascending(sorted, Destination())
    ensures |sorted| == |outs| && forall o :: o in sorted <==> o in outs
  {
    hide AtMost;
    SameElements(sorted, outs);
    DistinctStays(outs, sorted);
    forall i, j | 0 <= i < j < |sorted| ensures AtMost(sorted[i].dst, sorted[j].dst) {
      assert ByKey(Destination())(sorted[i], sorted[j]);
    }
  }

  /** Rearranging does not repeat anything. */
  lemma DistinctStays(outs: seq<Out>, sorted: seq<Out>)
    requires DistinctOuts(outs) && multiset(sorted) == multiset(outs)
    ensures DistinctOuts(sorted)
  {
    SameElements(sorted, outs);
    forall i, j | 0 <= i < j < |sorted| ensures sorted[i].dst != sorted[j].dst {
      assert sorted[i] in outs && sorted[j] in outs;
      if sorted[i] == sorted[j] {
        var x := sorted[i];
        TwiceInSeq(sorted, i, j);
        OnceInSeq(outs, x);
      }
    }
  }

  lemma TwiceInSeq(s: seq<Out>, i: nat, j: nat)
    requires i < j < |s| && s[i] == s[j]
    ensures multiset(s)[s[i]] >= 2
  {
    assert s == s[..j] + [s[j]] + s[j + 1..];
    assert s[..j][i] == s[i];
    assert s[i] in multiset(s[..j]);
  }

  lemma {:induction false} OnceInSeq(s: seq<Out>, x: Out)
    requires DistinctOuts(s)
    ensures multiset(s)[x] <= 1
    decreases |s|
  {
    if s != [] {
      var n := |s| - 1;
      assert s == s[..n] + [s[n]];
      OnceInSeq(s[..n], x);
      if s[n] == x {
        assert x !in s[..n];
        assert x !in multiset(s[..n]);
      }
    }
  }

  /** The rows in the order of the sorted sources. */
  method MakeRows(g: Groups, ghost c: Counts) returns (rows: seq<Row>)
    requires Grouped(g, c, c.Keys)
    ensures Represents(rows, c)
  {
    NameOrders();
    hide AtMost, TotalPreorder;
    var srcs := SortSources(g.Keys);
    rows := [];
    for i := 0 to |srcs|
      invariant |rows| == i && forall k :: 0 <= k < i ==> rows[k].src == srcs[k]
      invariant forall k :: 0 <= k < i ==> RowOf(rows[k], g)
    {
      var outs := Sort(g[srcs[i]], ByKey(Destination()));
      SortedOuts(g[srcs[i]], outs);
      rows := rows + [Row(srcs[i], outs)];
    }
    RowsRepresent(rows, srcs, g, c);
  }

  ghost predicate RowOf(row: Row, g: Groups) {
    && row.src in g && Ascending(row.outs, Destination())
    && |row.outs| == |g[row.src]| && forall o :: o in row.outs <==> o in g[row.src]
  }

  lemma RowsRepresent(rows: seq<Row>, srcs: seq<string>, g: Groups, c: Counts)
    requires Grouped(g, c, c.Keys)
    requires |rows| == |srcs| && forall k :: 0 <= k < |rows| ==> rows[k].src == srcs[k] && RowOf(rows[k], g)
    requires forall i, j :: 0 <= i < j < |srcs| ==> AtMost(srcs[i], srcs[j]) && srcs[i] != srcs[j]
    requires forall s :: s in srcs <==> s in g
    ensures Represents(rows, c)
  {
    hide AtMost;
    forall row | row in rows ensures RowFits(row, c) {
      assert RowOf(row, g);
    }
    forall p | p in c ensures exists row :: row in rows && Shows(row, p) {
      var k :| 0 <= k < |srcs| && srcs[k] == p.0;
      var o :| o in g[p.0] && o.dst == p.1;
      assert RowOf(rows[k], g) && o in rows[k].outs;
      assert rows[k] in rows && Shows(rows[k], p);
    }
  }

  method SortSources(names: set<string>) returns (srcs: seq<string>)
    requires TotalPreorder(ByName())
    ensures forall s :: s in srcs <==> s in names
    ensures forall i, j :: 0 <= i < j < |srcs| ==> AtMost(srcs[i], srcs[j]) && srcs[i] != srcs[j]
  {
    hide AtMost, TotalPreorder;
    var todo := names;
    var keys: seq<string> := [];
    while todo != {}
      invariant todo <= names
      invariant forall s :: s in keys <==> s in names && s !in todo
      invariant |keys| == |names - todo|
    {
      var s :| s in todo;
      assert names - (todo - {s}) == names - todo + {s};
      keys := keys + [s];
      todo := todo - {s};
    }
    assert names - todo == names;
    srcs := Sort(keys, ByName());
    SameElements(srcs, keys);
    assert Sums.SetOf(srcs) == names;
    Sums.SetOfSize(srcs);
    forall i, j | 0 <= i < j < |srcs| ensures AtMost(srcs[i], srcs[j]) {
      assert ByName()(srcs[i], srcs[j]);
    }
  }

  /** The text is the rendering of the representation of the graph, which is unique. */
  method Ascii(g: Graph) returns (text: string)
    requires g.Valid()
    ensures forall rows :: Represents(rows, g.Contents) ==> text == Render(rows)
    ensures exists rows :: Represents(rows, g.Contents)
  {
    hide Represents, Grouped, RowLines;
    var srcEdges := GroupEdges(g);
    var rows := MakeRows(srcEdges, g.Contents);
    forall rows' | Represents(rows', g.Contents) ensures rows' == rows {
      RepresentationUnique(rows', rows, g.Contents);
    }
    if |rows| == 0 {
      return NO_EDGES;
    }
    text := "";
    for i := 0 to |rows|
      invariant text == Text(Lines(rows[..i]))
    {
      var gap := if i > 0 then [""] else [];
      assert rows[..i + 1][..i] == rows[..i];
      TextConcat(Lines(rows[..i]), gap);
      TextConcat(Lines(rows[..i]) + gap, RowLines(rows[i]));
      if i > 0 {
        text := text + "\n";
      }
      var block := DrawRow(rows[i]);
      text := text + block;
    }
    assert rows[..|rows|] == rows;
  }

  method DrawRow(row: Row) returns (b: string)
    ensures b == Text(RowLines(row))
  {
    hide Label;
    if |row.outs| == 1 {
      var written := DrawLabel(row.outs[0]);
      b := row.src + ARROW + written + "\n";
      OneLineText(row.src + ARROW + written);
    } else {
      b := DrawTree(row.src, row.outs);
    }
  }

  method DrawLabel(o: Out) returns (b: string)
    ensures b == Label(o)
  {
    b := o.dst;
    if o.count > 1 {
      b := b + "  (" + Decimal(o.count) + " connections)";
      assert b == o.dst + CountText(o.count);
    } else {
      assert b == o.dst + "";
    }
  }

  lemma OneLineText(line: string)
    ensures Text([line]) == line + "\n"
  {
    assert [line][1..] == [];
    assert Text([]) == "";
  }

  method DrawTree(src: string, outs: seq<Out>) returns (b: string)
    ensures b == Text([src] + ChildLines(outs, |outs|))
  {
    hide Label, Text;
    b := src + "\n";
    OneLineText(src);
    assert [src] + ChildLines(outs, 0) == [src];
    for j := 0 to |outs|
      invariant b == Text([src] + ChildLines(outs, j))
    {
      var prefix := if j == |outs| - 1 then ELBOW else TEE;
      var written := DrawLabel(outs[j]);
      b := b + prefix + written + "\n";
      assert [src] + ChildLines(outs, j + 1) == ([src] + ChildLines(outs, j)) + [prefix + written];
      TextConcat([src] + ChildLines(outs, j), [prefix + written]);
      OneLineText(prefix + written);
    }
  }

  // The order and the characters of the drawing.

  /** The order of names is that of their first difference, a beginning coming before the whole. */
  lemma {:induction false} AtMostIff(a: string, b: string)
    ensures AtMost(a, b) <==>
            a <= b || exists i :: 0 <= i < |a| && i < |b| && a[..i] == b[..i] && a[i] < b[i]
  {
    if a != "" && b != "" {
      AtMostIff(a[1..], b[1..]);
      if a[0] == b[0] {
        assert a == [a[0]] + a[1..] && b == [b[0]] + b[1..];
        FirstDifference(a, b);
      } else if a[0] < b[0] {
        assert a[..0] == b[..0];
      }
    }
  }

  lemma FirstDifference(a: string, b: string)
    requires a != "" && b != "" && a[0] == b[0]
    ensures (exists i :: 0 <= i < |a| && i < |b| && a[..i] == b[..i] && a[i] < b[i]) <==>
            (exists i :: 0 <= i < |a| - 1 && i < |b| - 1 && a[1..][..i] == b[1..][..i] && a[1..][i] < b[1..][i])
  {
    if i :| 0 <= i < |a| && i < |b| && a[..i] == b[..i] && a[i] < b[i] {
      assert a[1..][..i - 1] == a[..i][1..] && b[1..][..i - 1] == b[..i][1..];
    }
    if i :| 0 <= i < |a| - 1 && i < |b| - 1 && a[1..][..i] == b[1..][..i] && a[1..][i] < b[1..][i] {
      assert a[..i + 1] == [a[0]] + a[1..][..i] && b[..i + 1] == [b[0]] + b[1..][..i];
    }
  }

  /** A single destination stands behind an arrow; of several, each but the last hangs on a branch and
      the last on a corner. A count is written only above one. */
  lemma RowIsDrawn(row: Row, j: nat)
    requires j < |row.outs|
    ensures
      var o, lines := row.outs[j], RowLines(row);
      var written := if o.count <= 1 then o.dst else o.dst + "  (" + Decimal(o.count) + " connections)";
      && |lines| == (if |row.outs| == 1 then 1 else 1 + |row.outs|)
      && (|row.outs| == 1 ==> lines[0] == row.src + " \U{2500}\U{2500}\U{2192} " + written)
      && (|row.outs| > 1 ==> lines[0] == row.src)
      && (|row.outs| > 1 && j + 1 < |row.outs| ==> lines[1 + j] == "  \U{251C}\U{2500}\U{2192} " + written)
      && (|row.outs| > 1 && j + 1 == |row.outs| ==> lines[1 + j] == "  \U{2514}\U{2500}\U{2192} " + written)
  {
    hide Label, Decimal;
    LabelIsWritten(row.outs[j]);
  }

  lemma LabelIsWritten(o: Out)
    ensures Label(o) == if o.count <= 1 then o.dst else o.dst + "  (" + Decimal(o.count) + " connections)"
  {
    hide Decimal;
    if o.count <= 1 {
      assert o.dst + "" == o.dst;
    } else {
      assert o.dst + ("  (" + Decimal(o.count) + " connections)") == o.dst + "  (" + Decimal(o.count) + " connections)";
    }
  }

  /** Blocks follow each other with an empty line in between, and every line ends with a line end. */
  lemma DrawingIsBlocks(rows: seq<Row>)
    requires rows != []
    ensures
      var n := |rows| - 1;
      Render(rows) == (if n == 0 then "" else Render(rows[..n]) + "\n") + Text(RowLines(rows[n]))
    ensures Render([]) == "(no edges)"
  {
    hide RowLines;
    var n := |rows| - 1;
    if n > 0 {
      TextConcat(Lines(rows[..n]), [""]);
      TextConcat(Lines(rows[..n]) + [""], RowLines(rows[n]));
      assert Text([""]) == "\n" by { OneLineText(""); }
    } else {
      assert rows[..0] == [];
      assert Lines(rows) == RowLines(rows[0]);
    }
  }
}
