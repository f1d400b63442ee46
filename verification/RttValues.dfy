/** The latency value kept per flow, per pair and per node, and the algebra of merging such values. */
module RttValues {
  import opened Machine
  import opened Bucketing
  import opened Sums
  import opened Folds

  type Hist = h: seq<u32> | |h| == 27
    witness [0, 0, 0, 0, 0, 0, 0, 0, 0, 0, 0, 0, 0, 0, 0, 0, 0, 0, 0, 0, 0, 0, 0, 0, 0, 0, 0]

  datatype RttVal = RttVal(sumUs: u64, count: u64, minUs: u32, maxUs: u32, hist: Hist)

  /** The value of a freshly zeroed structure; a minimum of 0 reads as "no minimum yet". */
  const ZERO: RttVal := RttVal(0, 0, 0, 0,
    [0, 0, 0, 0, 0, 0, 0, 0, 0, 0, 0, 0, 0, 0, 0, 0, 0, 0, 0, 0, 0, 0, 0, 0, 0, 0, 0])

  function SmallerSet(a: u32, b: u32): u32 {
    if b > 0 && (a == 0 || b < a) then b else a
  }

  function Merge(a: RttVal, b: RttVal): RttVal {
    RttVal(Add64(a.sumUs, b.sumUs), Add64(a.count, b.count),
           SmallerSet(a.minUs, b.minUs), Max(a.maxUs, b.maxUs),
           seq(27, i requires 0 <= i < 27 => Add32(a.hist[i], b.hist[i])))
  }

  /** The value of one sample. */
  function Single(x: u32): RttVal {
    RttVal(x, 1, x, x, seq(27, i => if i == Bucket(x) then 1 else 0))
  }

  function Push(a: RttVal, x: u32): RttVal {
    Merge(a, Single(x))
  }

  /** One accumulator fed with all the samples. */
  function AccOf(xs: seq<u32>): RttVal {
    Fold(Push, ZERO, xs)
  }

  function MergeAll(vals: seq<RttVal>): RttVal {
    Fold(Merge, ZERO, vals)
  }

  lemma MergeAllSnoc(vals: seq<RttVal>, v: RttVal)
    ensures MergeAll(vals + [v]) == Merge(MergeAll(vals), v)
  {
    assert (vals + [v])[..|vals|] == vals;
  }

  lemma MergeCommutes(a: RttVal, b: RttVal)
    ensures Merge(a, b) == Merge(b, a)
  {
    assert Merge(a, b).hist == Merge(b, a).hist;
  }

  lemma MergeAssociates(a: RttVal, b: RttVal, c: RttVal)
    ensures Merge(Merge(a, b), c) == Merge(a, Merge(b, c))
  {
    AddAssociates64(a.sumUs, b.sumUs, c.sumUs);
    AddAssociates64(a.count, b.count, c.count);
    var l, r := Merge(Merge(a, b), c).hist, Merge(a, Merge(b, c)).hist;
    forall i | 0 <= i < 27 ensures l[i] == r[i] {
      AddAssociates32(a.hist[i], b.hist[i], c.hist[i]);
    }
    assert l == r;
  }

  lemma MergeZero(a: RttVal)
    ensures Merge(ZERO, a) == a && Merge(a, ZERO) == a
  {
    assert Merge(ZERO, a).hist == a.hist;
    assert Merge(a, ZERO).hist == a.hist;
  }

  /** An accumulator that starts at the extremes of its first value ends as if it started from zero. */
  lemma MergeFirst(v: RttVal)
    ensures Merge(RttVal(0, 0, v.minUs, v.maxUs, ZERO.hist), v) == Merge(ZERO, v)
  {
  }

  lemma MergeSwap(a: RttVal, b: RttVal, c: RttVal)
    ensures Merge(Merge(a, b), c) == Merge(Merge(a, c), b)
  {
    MergeAssociates(a, b, c);
    MergeAssociates(a, c, b);
    MergeCommutes(b, c);
  }

  lemma MergeStepsCommute()
    ensures StepsCommute(Merge) && StepsCommute(Push)
  {
    forall a, x, y ensures Merge(Merge(a, x), y) == Merge(Merge(a, y), x) {
      MergeSwap(a, x, y);
    }
    forall a, x, y ensures Push(Push(a, x), y) == Push(Push(a, y), x) {
      MergeSwap(a, Single(x), Single(y));
    }
  }

  lemma {:induction false} AccFrom(a: RttVal, xs: seq<u32>)
    ensures Fold(Push, a, xs) == Merge(a, AccOf(xs))
    decreases |xs|
  {
    if xs == [] {
      MergeZero(a);
    } else {
      var n := |xs| - 1;
      AccFrom(a, xs[..n]);
      MergeAssociates(a, AccOf(xs[..n]), Single(xs[n]));
    }
  }

  lemma AccConcat(xs: seq<u32>, ys: seq<u32>)
    ensures AccOf(xs + ys) == Merge(AccOf(xs), AccOf(ys))
  {
    FoldConcat(Push, ZERO, xs, ys);
    AccFrom(AccOf(xs), ys);
  }

  lemma AccPermutes(xs: seq<u32>, ys: seq<u32>)
    requires multiset(xs) == multiset(ys)
    ensures AccOf(xs) == AccOf(ys)
  {
    MergeStepsCommute();
    FoldPermutes(Push, ZERO, xs, ys);
  }

  function Flatten<T>(parts: seq<seq<T>>): seq<T> {
    if parts == [] then [] else Flatten(parts[..|parts| - 1]) + parts[|parts| - 1]
  }

  function AccEach(parts: seq<seq<u32>>): (r: seq<RttVal>)
    ensures |r| == |parts| && forall i :: 0 <= i < |r| ==> r[i] == AccOf(parts[i])
  {
    seq(|parts|, i requires 0 <= i < |parts| => AccOf(parts[i]))
  }

  /** Two levels of aggregation refine one accumulator: however the samples were split into
      flows, and in whatever order the flows are merged, the outcome is that of one accumulator
      fed with all the samples in any order. */
  lemma {:induction false} TwoLevelsRefineOne(flows: seq<seq<u32>>, merged: seq<RttVal>, samples: seq<u32>)
    requires multiset(merged) == multiset(AccEach(flows))
    requires multiset(samples) == multiset(Flatten(flows))
    ensures MergeAll(merged) == AccOf(samples)
  {
    MergeStepsCommute();
    FoldPermutes(Merge, ZERO, merged, AccEach(flows));
    AccPermutes(samples, Flatten(flows));
    MergeFlows(flows);
  }

  lemma {:induction false} MergeFlows(flows: seq<seq<u32>>)
    ensures MergeAll(AccEach(flows)) == AccOf(Flatten(flows))
    decreases |flows|
  {
    if flows != [] {
      var n := |flows| - 1;
      assert AccEach(flows)[..n] == AccEach(flows[..n]);
      MergeFlows(flows[..n]);
      AccConcat(Flatten(flows[..n]), flows[n]);
    }
  }

  // What the accumulated numbers mean.

  function InBucket(b: nat): u32 -> int {
    (x: u32) => if Bucket(x) == b then 1 else 0
  }

  ghost predicate Positive(xs: seq<u32>) {
    forall i :: 0 <= i < |xs| ==> xs[i] > 0
  }

  ghost predicate IsMinimum(m: int, xs: seq<int>) {
    m in xs && forall i :: 0 <= i < |xs| ==> m <= xs[i]
  }

  ghost predicate IsMaximum(m: int, xs: seq<int>) {
    m in xs && forall i :: 0 <= i < |xs| ==> xs[i] <= m
  }

  /** Sum, count and cells are those of the samples, modulo the word widths. */
  lemma {:induction false} AccTotals(xs: seq<u32>)
    ensures AccOf(xs).sumUs == Wrap64(SumSeq(xs, Identity()))
    ensures AccOf(xs).count == Wrap64(|xs|)
    decreases |xs|
  {
    if xs != [] {
      var n := |xs| - 1;
      AccTotals(xs[..n]);
      WrapAdd64(SumSeq(xs[..n], Identity()), xs[n]);
      WrapAdd64(n, 1);
    }
  }

  lemma WrapZero()
    ensures Wrap32(0) == 0
  {
  }

  lemma {:induction false} AccCells(xs: seq<u32>, b: nat)
    requires b < BUCKETS
    ensures AccOf(xs).hist[b] == Wrap32(SumSeq(xs, InBucket(b)))
    decreases |xs|
  {
    hide Bucket, Wrap32, Add32;
    if xs != [] {
      var n := |xs| - 1;
      AccCells(xs[..n], b);
      WrapNext32(SumSeq(xs[..n], InBucket(b)), InBucket(b)(xs[n]));
    } else {
      WrapZero();
    }
  }

  /** The maximum is the true maximum of the samples, and so is the minimum when none of them is 0. */
  lemma {:induction false} AccExtremes(xs: seq<u32>)
    requires xs != []
    ensures IsMaximum(AccOf(xs).maxUs, xs)
    ensures Positive(xs) ==> IsMinimum(AccOf(xs).minUs, xs)
    decreases |xs|
  {
    var n := |xs| - 1;
    assert xs == xs[..n] + [xs[n]];
    assert AccOf(xs) == Merge(AccOf(xs[..n]), Single(xs[n]));
    if n > 0 {
      AccExtremes(xs[..n]);
    } else {
      assert AccOf(xs[..n]) == ZERO;
    }
    forall i | 0 <= i < |xs|
      ensures xs[i] <= AccOf(xs).maxUs && (Positive(xs) ==> AccOf(xs).minUs <= xs[i])
    {
      if i < n {
        assert xs[..n][i] == xs[i];
      }
    }
  }

  // What merging any values gives, samples or not.

  /** Sums, counts and cells add up modulo the word widths. */
  lemma {:induction false} MergeAllAddsUp(vals: seq<RttVal>, b: nat)
    requires b < BUCKETS
    ensures MergeAll(vals).sumUs == Wrap64(SumSeq(vals, (v: RttVal) => v.sumUs))
    ensures MergeAll(vals).count == Wrap64(SumSeq(vals, (v: RttVal) => v.count))
    ensures MergeAll(vals).hist[b] == Wrap32(SumSeq(vals, (v: RttVal) => v.hist[b]))
    decreases |vals|
  {
    if vals == [] {
      WrapSmall64(0);
      WrapZero();
    } else {
      var n := |vals| - 1;
      MergeAllAddsUp(vals[..n], b);
      WrapNext64(SumSeq(vals[..n], (v: RttVal) => v.sumUs), vals[n].sumUs);
      WrapNext64(SumSeq(vals[..n], (v: RttVal) => v.count), vals[n].count);
      WrapNext32(SumSeq(vals[..n], (v: RttVal) => v.hist[b]), vals[n].hist[b]);
      hide Wrap64, Wrap32, Add64, Add32;
      assert MergeAll(vals) == Merge(MergeAll(vals[..n]), vals[n]);
    }
  }

  /** The maximum is the greatest one, the minimum the least that is not 0, if there is any. */
  lemma {:induction false} MergeAllExtremes(vals: seq<RttVal>)
    ensures forall v :: v in vals ==> v.maxUs <= MergeAll(vals).maxUs
    ensures MergeAll(vals).maxUs == 0 || exists v :: v in vals && v.maxUs == MergeAll(vals).maxUs
    ensures forall v :: v in vals && v.minUs > 0 ==> 0 < MergeAll(vals).minUs <= v.minUs
    ensures MergeAll(vals).minUs == 0 || exists v :: v in vals && v.minUs == MergeAll(vals).minUs
    decreases |vals|
  {
    if vals != [] {
      var n := |vals| - 1;
      MergeAllExtremes(vals[..n]);
      assert vals == vals[..n] + [vals[n]];
      assert MergeAll(vals) == Merge(MergeAll(vals[..n]), vals[n]);
    }
  }

  // Grouping by key.

  /** Adding a value under a key: a missing key starts from zero. */
  function AddTo<K>(g: map<K, RttVal>, k: K, v: RttVal): map<K, RttVal> {
    g[k := Merge(if k in g then g[k] else ZERO, v)]
  }

  lemma AddToCommutes<K>(g: map<K, RttVal>, k: K, v: RttVal, l: K, w: RttVal)
    ensures AddTo(AddTo(g, k, v), l, w) == AddTo(AddTo(g, l, w), k, v)
  {
    if k == l {
      MergeSwap(if k in g then g[k] else ZERO, v, w);
    }
    assert AddTo(AddTo(g, k, v), l, w) == AddTo(AddTo(g, l, w), k, v);
  }
}
