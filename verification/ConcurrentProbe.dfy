/** The RTT probe run by many CPUs at once: each atomic operation is a step of its own, and a cell
    that is replaced in the map lives on for the probes that still hold it. */
module ConcurrentProbe {
  import opened Machine
  import opened Bucketing
  import opened Sums
  import opened Percentile
  import opened Addresses

  datatype Cell = Cell(id: FlowId, sum: nat, count: nat, hist: seq<nat>)

  datatype Stage =
    | Entered                 // before the lookup
    | Missed                  // the lookup found nothing
    | Found(cell: nat)        // holds a cell, nothing added yet
    | Summed(cell: nat)       // the sum is added
    | Counted(cell: nat)      // the count is added
    | Finished                // the histogram cell is added, or a new value was inserted
    | Rejected                // the insertion failed because the map was full

  /** One invocation of the probe on a segment with a non-zero RTT. */
  datatype Probe = Probe(id: FlowId, rttUs: u32, stage: Stage)

  datatype State = State(cells: seq<Cell>, live: map<FlowId, nat>, probes: seq<Probe>)

  datatype Action = Enter(id: FlowId, srtt: u32) | Advance(probe: nat)

  function NewCell(p: Probe): Cell {
    Cell(p.id, p.rttUs, 1, seq(27, i => if i == Bucket(p.rttUs) then 1 else 0))
  }

  function Moved(s: State, i: nat, stage: Stage): seq<Probe>
    requires i < |s.probes|
  {
    s.probes[i := s.probes[i].(stage := stage)]
  }

  function Enters(s: State, id: FlowId, srtt: u32): State {
    if srtt / 8 == 0 then s else s.(probes := s.probes + [Probe(id, srtt / 8, Entered)])
  }

  function LooksUp(s: State, i: nat): State
    requires i < |s.probes|
  {
    var p := s.probes[i];
    s.(probes := Moved(s, i, if p.id in s.live then Found(s.live[p.id]) else Missed))
  }

  function Inserts(s: State, i: nat): State
    requires i < |s.probes|
  {
    var p := s.probes[i];
    if p.id !in s.live && |s.live| >= MAX_ENTRIES then s.(probes := Moved(s, i, Rejected))
    else State(s.cells + [NewCell(p)], s.live[p.id := |s.cells|], Moved(s, i, Finished))
  }

  /** An atomic addition to the cell a probe holds. */
  function Adds(s: State, i: nat, c: nat, cell: Cell, stage: Stage): State
    requires i < |s.probes| && c < |s.cells|
  {
    s.(cells := s.cells[c := cell], probes := Moved(s, i, stage))
  }

  function Bumped(hist: seq<nat>, b: nat): seq<nat> {
    if b < |hist| then hist[b := hist[b] + 1] else hist
  }

  /** The next step of a probe; an action that is not possible leaves the state unchanged. */
  function Apply(s: State, a: Action): State {
    match a
    case Enter(id, srtt) => Enters(s, id, srtt)
    case Advance(i) =>
      if i >= |s.probes| then s else
        var p := s.probes[i];
        match p.stage
        case Entered => LooksUp(s, i)
        case Missed => Inserts(s, i)
        case Found(c) =>
          if c >= |s.cells| then s
          else Adds(s, i, c, s.cells[c].(sum := s.cells[c].sum + p.rttUs), Summed(c))
        case Summed(c) =>
          if c >= |s.cells| then s
          else Adds(s, i, c, s.cells[c].(count := s.cells[c].count + 1), Counted(c))
        case Counted(c) =>
          if c >= |s.cells| then s
          else Adds(s, i, c, s.cells[c].(hist := Bumped(s.cells[c].hist, Bucket(p.rttUs))), Finished)
        case Finished => s
        case Rejected => s
  }

  function Run(actions: seq<Action>): State {
    if actions == [] then State([], map[], [])
    else Apply(Run(actions[..|actions| - 1]), actions[|actions| - 1])
  }

  // Counting probes and cells.

  function HistTotal(hist: seq<nat>): int {
    SumSeq(hist, Identity())
  }

  /** Between the count and the histogram of cell `c`. */
  function Between(c: nat): Probe -> int {
    (p: Probe) => if p.stage == Counted(c) then 1 else 0
  }

  function Of(id: FlowId): Probe -> int {
    (p: Probe) => if p.id == id then 1 else 0
  }

  /** Not yet counted, or never to be counted. */
  function Uncounted(id: FlowId): Probe -> int {
    (p: Probe) =>
      if p.id == id && (p.stage.Entered? || p.stage.Missed? || p.stage.Found? || p.stage.Summed? || p.stage.Rejected?)
      then 1 else 0
  }

  function RttIn(id: FlowId): Probe -> int {
    (p: Probe) => if p.id == id then p.rttUs else 0
  }

  function Unsummed(id: FlowId): Probe -> int {
    (p: Probe) => if p.id == id && (p.stage.Entered? || p.stage.Missed? || p.stage.Found? || p.stage.Rejected?)
      then p.rttUs else 0
  }

  function CountIn(id: FlowId): Cell -> int {
    (c: Cell) => if c.id == id then c.count else 0
  }

  function SumIn(id: FlowId): Cell -> int {
    (c: Cell) => if c.id == id then c.sum else 0
  }

  function InFlight(): Probe -> int {
    (p: Probe) => if p.stage.Finished? || p.stage.Rejected? then 0 else 1
  }

  // The invariant.

  predicate Holding(p: Probe) {
    p.stage.Found? || p.stage.Summed? || p.stage.Counted?
  }

  predicate Fits(p: Probe, cells: seq<Cell>) {
    Holding(p) ==> p.stage.cell < |cells| && cells[p.stage.cell].id == p.id
  }

  predicate Leads(live: map<FlowId, nat>, cells: seq<Cell>, id: FlowId) {
    id in live ==> live[id] < |cells| && cells[live[id]].id == id
  }

  /** Cells are full size, the map leads to cells of the right flow, and so do the probes. */
  ghost predicate WellFormed(s: State) {
    && (forall c :: 0 <= c < |s.cells| ==> |s.cells[c].hist| == 27)
    && (forall id :: Leads(s.live, s.cells, id))
    && (forall i :: 0 <= i < |s.probes| ==> Fits(s.probes[i], s.cells))
    && |s.live| <= MAX_ENTRIES
  }

  /** The count of a cell is ahead of its histogram by the probes between the two additions. */
  ghost predicate CountAhead(s: State, c: nat) {
    c < |s.cells| ==> s.cells[c].count == HistTotal(s.cells[c].hist) + SumSeq(s.probes, Between(c))
  }

  /** Over the live and the replaced cells of a flow nothing is lost and nothing counted twice. */
  ghost predicate Conserved(s: State, id: FlowId) {
    && SumSeq(s.cells, CountIn(id)) + SumSeq(s.probes, Uncounted(id)) == SumSeq(s.probes, Of(id))
    && SumSeq(s.cells, SumIn(id)) + SumSeq(s.probes, Unsummed(id)) == SumSeq(s.probes, RttIn(id))
  }

  lemma StepWellFormed(s: State, a: Action)
    requires WellFormed(s)
    ensures WellFormed(Apply(s, a))
  {
    hide Bucket;
    var s' := Apply(s, a);
    assert |s.cells| <= |s'.cells| && forall c :: 0 <= c < |s.cells| ==>
        s'.cells[c].id == s.cells[c].id && |s'.cells[c].hist| == 27;
    forall id ensures Leads(s'.live, s'.cells, id) {
      assert Leads(s.live, s.cells, id);
    }
    forall i | 0 <= i < |s'.probes| ensures Fits(s'.probes[i], s'.cells) {
      if i < |s.probes| {
        StillFits(s, a, i);
      }
    }
    MapGrows(s, a);
  }

  /** A step leaves a probe as it was, or moves it on with the cell it holds, or lets it finish. */
  lemma StillFits(s: State, a: Action, i: nat)
    requires i < |s.probes| && Fits(s.probes[i], s.cells) && Leads(s.live, s.cells, s.probes[i].id)
    ensures i < |Apply(s, a).probes| && Fits(Apply(s, a).probes[i], Apply(s, a).cells)
  {
    hide Apply, Fits;
    var s' := Apply(s, a);
    CellsKeepFlows(s, a);
    if a == Advance(i) {
      StepFits(s, i);
    } else {
      OthersStay(s, a, i);
      FitsOn(s.probes[i], s.cells, s'.cells);
    }
  }

  lemma CellsKeepFlows(s: State, a: Action)
    ensures |s.cells| <= |Apply(s, a).cells|
    ensures forall c :: 0 <= c < |s.cells| ==> Apply(s, a).cells[c].id == s.cells[c].id
  {
    hide Bucket, NewCell, Bumped;
  }

  lemma OthersStay(s: State, a: Action, i: nat)
    requires i < |s.probes| && a != Advance(i)
    ensures i < |Apply(s, a).probes| && Apply(s, a).probes[i] == s.probes[i]
  {
    hide Bucket, NewCell, Bumped;
  }

  lemma FitsOn(p: Probe, cells: seq<Cell>, cells': seq<Cell>)
    requires Fits(p, cells) && |cells| <= |cells'|
    requires forall c :: 0 <= c < |cells| ==> cells'[c].id == cells[c].id
    ensures Fits(p, cells')
  {
  }

  lemma StepFits(s: State, i: nat)
    requires i < |s.probes| && Fits(s.probes[i], s.cells) && Leads(s.live, s.cells, s.probes[i].id)
    ensures i < |Apply(s, Advance(i)).probes| && Fits(Apply(s, Advance(i)).probes[i], Apply(s, Advance(i)).cells)
  {
    hide Bucket, NewCell, Bumped;
  }

  lemma MapGrows(s: State, a: Action)
    requires |s.live| <= MAX_ENTRIES
    ensures |Apply(s, a).live| <= MAX_ENTRIES
  {
    hide Bucket;
    if a.Advance? && a.probe < |s.probes| && s.probes[a.probe].stage.Missed? {
      var id := s.probes[a.probe].id;
      assert s.live[id := |s.cells|].Keys == s.live.Keys + {id};
    }
  }

  // Conservation, step by step.

  lemma MoveSums(s: State, i: nat, stage: Stage, f: Probe -> int)
    requires i < |s.probes|
    ensures SumSeq(Moved(s, i, stage), f) ==
            SumSeq(s.probes, f) - f(s.probes[i]) + f(s.probes[i].(stage := stage))
  {
    SumSeqUpdate(s.probes, i, s.probes[i].(stage := stage), f);
  }

  lemma StepConserves(s: State, a: Action, id: FlowId)
    requires WellFormed(s) && Conserved(s, id)
    ensures Conserved(Apply(s, a), id)
  {
    hide Bucket, SumSeq, WellFormed;
    match a
    case Enter(x, srtt) =>
      var p := Probe(x, srtt / 8, Entered);
      SumSnoc(s.probes, p, Uncounted(id));
      SumSnoc(s.probes, p, Of(id));
      SumSnoc(s.probes, p, Unsummed(id));
      SumSnoc(s.probes, p, RttIn(id));
    case Advance(i) =>
      if i < |s.probes| {
        AdvanceConserves(s, i, id);
      }
  }

  lemma StagesConserve(s: State, i: nat, stage: Stage, id: FlowId)
    requires i < |s.probes|
    ensures
      var p, q := s.probes[i], s.probes[i].(stage := stage);
      && SumSeq(Moved(s, i, stage), Of(id)) == SumSeq(s.probes, Of(id))
      && SumSeq(Moved(s, i, stage), RttIn(id)) == SumSeq(s.probes, RttIn(id))
      && SumSeq(Moved(s, i, stage), Uncounted(id)) ==
         SumSeq(s.probes, Uncounted(id)) - Uncounted(id)(p) + Uncounted(id)(q)
      && SumSeq(Moved(s, i, stage), Unsummed(id)) ==
         SumSeq(s.probes, Unsummed(id)) - Unsummed(id)(p) + Unsummed(id)(q)
  {
    hide SumSeq, Moved;
    MoveSums(s, i, stage, Of(id));
    MoveSums(s, i, stage, RttIn(id));
    MoveSums(s, i, stage, Uncounted(id));
    MoveSums(s, i, stage, Unsummed(id));
  }

  lemma AdvanceConserves(s: State, i: nat, id: FlowId)
    requires WellFormed(s) && Conserved(s, id) && i < |s.probes|
    ensures Conserved(Apply(s, Advance(i)), id)
  {
    hide Bucket, SumSeq, Moved;
    var p := s.probes[i];
    var s' := Apply(s, Advance(i));
    match p.stage
    case Entered =>
      StagesConserve(s, i, if p.id in s.live then Found(s.live[p.id]) else Missed, id);
    case Missed =>
      StagesConserve(s, i, Rejected, id);
      StagesConserve(s, i, Finished, id);
      SumSnoc(s.cells, NewCell(p), CountIn(id));
      SumSnoc(s.cells, NewCell(p), SumIn(id));
    case Found(c) =>
      assert Fits(p, s.cells);
      StagesConserve(s, i, Summed(c), id);
      SumSeqUpdate(s.cells, c, s'.cells[c], CountIn(id));
      SumSeqUpdate(s.cells, c, s'.cells[c], SumIn(id));
    case Summed(c) =>
      assert Fits(p, s.cells);
      StagesConserve(s, i, Counted(c), id);
      SumSeqUpdate(s.cells, c, s'.cells[c], CountIn(id));
      SumSeqUpdate(s.cells, c, s'.cells[c], SumIn(id));
    case Counted(c) =>
      assert Fits(p, s.cells);
      StagesConserve(s, i, Finished, id);
      SumSeqUpdate(s.cells, c, s'.cells[c], CountIn(id));
      SumSeqUpdate(s.cells, c, s'.cells[c], SumIn(id));
    case Finished =>
    case Rejected =>
  }

  // The count against the histogram.

  lemma BumpedTotal(hist: seq<nat>, b: nat)
    requires b < |hist|
    ensures HistTotal(Bumped(hist, b)) == HistTotal(hist) + 1
  {
    SumSeqUpdate(hist, b, hist[b] + 1, Identity());
  }

  lemma {:induction false} ZeroTotal(hist: seq<nat>)
    requires forall i :: 0 <= i < |hist| ==> hist[i] == 0
    ensures HistTotal(hist) == 0
  {
    if hist != [] {
      ZeroTotal(hist[..|hist| - 1]);
    }
  }

  lemma NewCellTotal(p: Probe)
    ensures HistTotal(NewCell(p).hist) == 1
  {
    hide Bucket;
    var zeros: seq<nat> := seq(27, i => 0);
    ZeroTotal(zeros);
    BumpedTotal(zeros, Bucket(p.rttUs));
    assert Bumped(zeros, Bucket(p.rttUs)) == NewCell(p).hist;
  }

  lemma {:induction false} NobodyBetween(probes: seq<Probe>, c: nat)
    requires forall i :: 0 <= i < |probes| ==> Holding(probes[i]) ==> probes[i].stage.cell != c
    ensures SumSeq(probes, Between(c)) == 0
  {
    if probes != [] {
      NobodyBetween(probes[..|probes| - 1], c);
    }
  }

  lemma StepKeepsCountAhead(s: State, a: Action, c: nat)
    requires WellFormed(s) && CountAhead(s, c)
    ensures CountAhead(Apply(s, a), c)
  {
    hide Bucket, SumSeq, HistTotal;
    match a
    case Enter(x, srtt) =>
      SumSnoc(s.probes, Probe(x, srtt / 8, Entered), Between(c));
    case Advance(i) =>
      if i < |s.probes| {
        AdvanceKeepsCountAhead(s, i, c);
      }
  }

  lemma AdvanceKeepsCountAhead(s: State, i: nat, c: nat)
    requires WellFormed(s) && CountAhead(s, c) && i < |s.probes|
    ensures CountAhead(Apply(s, Advance(i)), c)
  {
    hide Bucket, SumSeq, HistTotal, Moved, Bumped;
    var p := s.probes[i];
    match p.stage
    case Entered =>
      MoveSums(s, i, if p.id in s.live then Found(s.live[p.id]) else Missed, Between(c));
    case Missed =>
      MoveSums(s, i, Rejected, Between(c));
      MoveSums(s, i, Finished, Between(c));
      if c == |s.cells| {
        assert forall j :: 0 <= j < |s.probes| ==> Fits(s.probes[j], s.cells);
        NobodyBetween(s.probes, c);
        NewCellTotal(p);
      }
    case Found(k) =>
      MoveSums(s, i, Summed(k), Between(c));
    case Summed(k) =>
      MoveSums(s, i, Counted(k), Between(c));
    case Counted(k) =>
      assert Fits(p, s.cells);
      MoveSums(s, i, Finished, Between(c));
      BumpedTotal(s.cells[k].hist, Bucket(p.rttUs));
    case Finished =>
    case Rejected =>
  }

  function Rank(stage: Stage): nat {
    match stage
    case Entered => 0
    case Missed => 1
    case Found(_) => 1
    case Summed(_) => 2
    case Counted(_) => 3
    case Finished => 4
    case Rejected => 4
  }

  /** A probe in flight can always take its next step, after at most four it is done, and nobody else
      moves meanwhile. */
  lemma ProbesProgress(s: State, i: nat)
    requires WellFormed(s) && i < |s.probes| && Rank(s.probes[i].stage) < 4
    ensures
      var probes := Apply(s, Advance(i)).probes;
      && |probes| == |s.probes| && Rank(probes[i].stage) > Rank(s.probes[i].stage)
      && probes[i].id == s.probes[i].id && probes[i].rttUs == s.probes[i].rttUs
      && forall j :: 0 <= j < |probes| && j != i ==> probes[j] == s.probes[j]
  {
    hide Bucket;
    assert Fits(s.probes[i], s.cells);
  }

  // Whole runs.

  lemma {:induction false} RunWellFormed(actions: seq<Action>)
    ensures WellFormed(Run(actions))
  {
    if actions != [] {
      hide Apply, WellFormed;
      RunWellFormed(actions[..|actions| - 1]);
      StepWellFormed(Run(actions[..|actions| - 1]), actions[|actions| - 1]);
    }
  }

  /** Main result: in every reachable state the count of every cell, live or replaced, is the sum of
      its histogram plus the number of probes that hold it between the two additions. */
  lemma {:induction false} CountIsHistogramPlusBetween(actions: seq<Action>, c: nat)
    ensures CountAhead(Run(actions), c)
  {
    if actions != [] {
      hide Apply, WellFormed, CountAhead;
      CountIsHistogramPlusBetween(actions[..|actions| - 1], c);
      RunWellFormed(actions[..|actions| - 1]);
      StepKeepsCountAhead(Run(actions[..|actions| - 1]), actions[|actions| - 1], c);
    }
  }

  /** Main result: in every reachable state the counts and sums over all cells of a flow, plus the
      probes that have yet to add or were rejected, are exactly the invocations of that flow. */
  lemma {:induction false} NothingLostOrDoubled(actions: seq<Action>, id: FlowId)
    ensures Conserved(Run(actions), id)
  {
    if actions != [] {
      hide Apply, WellFormed, Conserved;
      NothingLostOrDoubled(actions[..|actions| - 1], id);
      RunWellFormed(actions[..|actions| - 1]);
      StepConserves(Run(actions[..|actions| - 1]), actions[|actions| - 1], id);
    }
  }

  lemma {:induction false} ElementAtMostSum<T>(s: seq<T>, i: nat, f: T -> int)
    requires forall i :: 0 <= i < |s| ==> f(s[i]) >= 0
    requires i < |s|
    ensures 0 <= f(s[i]) <= SumSeq(s, f)
    decreases |s|
  {
    NonNegative(s[..|s| - 1], f);
    if i < |s| - 1 {
      ElementAtMostSum(s[..|s| - 1], i, f);
    }
  }

  lemma {:induction false} NonNegative<T>(s: seq<T>, f: T -> int)
    requires forall i :: 0 <= i < |s| ==> f(s[i]) >= 0
    ensures SumSeq(s, f) >= 0
  {
    if s != [] {
      NonNegative(s[..|s| - 1], f);
    }
  }

  /** The value a reader of the map finds for a flow. */
  function LiveCell(s: State, id: FlowId): Cell {
    if id in s.live && s.live[id] < |s.cells| then s.cells[s.live[id]]
    else Cell(id, 0, 0, [])
  }

  /** The value a reader sees for a flow never counts more samples than arrived. */
  lemma LiveNeverOvercounts(actions: seq<Action>, id: FlowId)
    ensures LiveCell(Run(actions), id).count <= SumSeq(Run(actions).probes, Of(id))
  {
    hide SumSeq, Run;
    var s := Run(actions);
    RunWellFormed(actions);
    NothingLostOrDoubled(actions, id);
    assert Leads(s.live, s.cells, id);
    NonNegative(s.cells, CountIn(id));
    NonNegative(s.probes, Uncounted(id));
    if id in s.live {
      ElementAtMostSum(s.cells, s.live[id], CountIn(id));
    }
  }

  ghost predicate Quiescent(s: State) {
    forall i :: 0 <= i < |s.probes| ==> s.probes[i].stage.Finished? || s.probes[i].stage.Rejected?
  }

  function RejectedOf(id: FlowId): Probe -> int {
    (p: Probe) => if p.id == id && p.stage.Rejected? then 1 else 0
  }

  /** Once all probes are done, every count equals its histogram, and the counts of all the cells of
      a flow equal its invocations less those rejected by the full map. */
  lemma QuiescentIsExact(actions: seq<Action>, id: FlowId, c: nat)
    requires Quiescent(Run(actions))
    ensures c < |Run(actions).cells| ==>
              Run(actions).cells[c].count == HistTotal(Run(actions).cells[c].hist)
    ensures SumSeq(Run(actions).cells, CountIn(id)) ==
            SumSeq(Run(actions).probes, Of(id)) - SumSeq(Run(actions).probes, RejectedOf(id))
  {
    hide SumSeq, Run, HistTotal;
    var s := Run(actions);
    CountIsHistogramPlusBetween(actions, c);
    NothingLostOrDoubled(actions, id);
    NobodyBetween(s.probes, c);
    SumSeqCongruent(s.probes, Uncounted(id), RejectedOf(id));
  }

  // What a percentile read in the middle of it all can miss.

  lemma BetweenIsInFlight(probes: seq<Probe>, c: nat)
    ensures SumSeq(probes, Between(c)) <= SumSeq(probes, InFlight())
  {
    SumSeqMonotone(probes, Between(c), InFlight());
  }

  /** The cells of a histogram as 32-bit words. */
  function Words(hist: seq<nat>): (h: seq<u32>)
    ensures |h| == |hist|
  {
    seq(|hist|, i requires 0 <= i < |hist| => Wrap32(hist[i]))
  }

  lemma {:induction false} WordsCumulate(hist: seq<nat>, n: nat)
    requires n <= |hist| <= 27
    requires forall i :: 0 <= i < |hist| ==> hist[i] < TWO32
    ensures Cumulative(Words(hist), n) == HistTotal(hist[..n]) <= n * 0xFFFF_FFFF
  {
    if n > 0 {
      WordsCumulate(hist, n - 1);
      assert hist[..n][..n - 1] == hist[..n - 1];
    }
  }

  lemma CellAtMostTotal(hist: seq<nat>, i: nat)
    requires i < |hist|
    ensures hist[i] <= HistTotal(hist)
  {
    ElementAtMostSum(hist, i, Identity());
    assert Identity()(hist[i]) == hist[i];
  }

  /** Main result: read the live value of any flow in any reachable state, while at most `k` probes
      are in flight and fewer than 2^32 samples were counted. If the percentile code finds no cell
      that reaches the target, the count was ahead of the target by less than `k`. */
  lemma FallbackOnlyNearTheTop(actions: seq<Action>, id: FlowId, k: nat, target: nat)
    requires id in Run(actions).live
    requires SumSeq(Run(actions).probes, InFlight()) <= k
    requires LiveCell(Run(actions), id).count < TWO32
    requires NeverReaches(Words(LiveCell(Run(actions), id).hist), target)
    ensures LiveCell(Run(actions), id).count - target < k
  {
    hide SumSeq, Run;
    var s := Run(actions);
    RunWellFormed(actions);
    assert Leads(s.live, s.cells, id);
    var c := s.live[id];
    var hist := s.cells[c].hist;
    CountIsHistogramPlusBetween(actions, c);
    BetweenIsInFlight(s.probes, c);
    NonNegative(s.probes, Between(c));
    assert LiveCell(s, id) == s.cells[c];
    assert HistTotal(hist) <= s.cells[c].count;
    forall i | 0 <= i < 27 ensures hist[i] < TWO32 {
      CellAtMostTotal(hist, i);
    }
    WordsCumulate(hist, 27);
    assert hist[..27] == hist;
  }
}
