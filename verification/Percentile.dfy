/** Percentiles read from the merged histogram, against percentiles of the raw samples.
    The source's double arithmetic on counts and probabilities is taken over the reals. */
module Percentile {
  import opened Machine
  import opened Bucketing
  import opened Sums
  import opened Folds
  import opened Sorting
  import opened RttValues

  // The histogram reader.

  /** The product count * p; a probability above one is taken as one. */
  function Scaled(count: nat, p: real): real {
    count as real * (if p > 1.0 then 1.0 else p)
  }

  /** The rank looked for: the floor of count * p, kept within [1, count]. */
  function Target(count: nat, p: real): (t: nat)
    requires count > 0
    ensures 1 <= t <= count
  {
    var exact := Scaled(count, p).Floor;
    if exact <= 0 then 1 else if exact > count then count else exact
  }

  /** The number of samples recorded in the first `i` cells, as the loop's u64 counter holds it. */
  function Cumulative(hist: seq<u32>, i: nat): u64
    requires i <= |hist|
  {
    if i == 0 then 0 else Add64(Cumulative(hist, i - 1), hist[i - 1])
  }

  /** For histograms of the source's size it is the sum of the cells, which cannot overflow. */
  lemma {:induction false} CumulativeIsSum(hist: seq<u32>, i: nat)
    requires i <= |hist| <= 27
    ensures Cumulative(hist, i) == SumSeq(hist[..i], Identity()) <= i * 0xFFFF_FFFF
  {
    if i > 0 {
      CumulativeIsSum(hist, i - 1);
      assert hist[..i][..i - 1] == hist[..i - 1];
    }
  }

  /** Cell `i` is the first at which the cumulative count reaches the target. */
  ghost predicate ReachesAt(hist: seq<u32>, target: nat, i: nat) {
    && i < |hist|
    && Cumulative(hist, i + 1) >= target
    && forall k :: 0 <= k <= i ==> Cumulative(hist, k) < target
  }

  ghost predicate NeverReaches(hist: seq<u32>, target: nat) {
    forall k :: 0 <= k <= |hist| ==> Cumulative(hist, k) < target
  }

  /** A 64-bit left shift of one: shifting by the width or more gives zero. */
  function Shl(i: int): nat {
    if 0 <= i < 64 then Pow2(i) else 0
  }

  function Midpoint(i: nat): real {
    if i == 0 then 1.0 else (Wrap64(Shl(i) + Shl(i + 1)) as real) / 2.0
  }

  /** The value returned when the cells hold fewer samples than the target. */
  function Fallback(cells: nat): real {
    Shl(cells - 1) as real
  }

  method PercentileFromHist(hist: seq<u32>, count: u64, p: real) returns (r: real)
    ensures count == 0 || p <= 0.0 ==> r == 0.0
    ensures count > 0 && p > 0.0 ==>
              forall i :: ReachesAt(hist, Target(count, p), i) ==> r == Midpoint(i)
    ensures count > 0 && p > 0.0 && NeverReaches(hist, Target(count, p)) ==> r == Fallback(|hist|)
    ensures r == HistPercentile(hist, count, p)
  {
    if count == 0 || p <= 0.0 {
      return 0.0;
    }
    var target := Scaled(count, p).Floor;
    if target <= 0 {
      target := 1;
    }
    if target > count {
      target := count;
    }
    var cum: u64 := 0;
    for i := 0 to |hist|
      invariant cum == Cumulative(hist, i)
      invariant forall k :: 0 <= k <= i ==> Cumulative(hist, k) < target
      invariant First(hist, target) == FirstFrom(hist, target, i)
    {
      cum := Add64(cum, hist[i]);
      if cum >= target {
        return Midpoint(i);
      }
    }
    r := Fallback(|hist|);
  }

  function FirstFrom(hist: seq<u32>, target: nat, i: nat): (r: nat)
    requires i <= |hist|
    ensures i <= r <= |hist|
    ensures forall k :: i < k <= r ==> Cumulative(hist, k) < target
    ensures r < |hist| ==> Cumulative(hist, r + 1) >= target
    decreases |hist| - i
  {
    if i == |hist| || Cumulative(hist, i + 1) >= target then i else FirstFrom(hist, target, i + 1)
  }

  /** The first cell that reaches the target, or the number of cells when none does. */
  function First(hist: seq<u32>, target: nat): nat {
    FirstFrom(hist, target, 0)
  }

  function CellValue(cells: nat, i: nat): real {
    if i < cells then Midpoint(i) else Fallback(cells)
  }

  function HistPercentile(hist: seq<u32>, count: u64, p: real): real {
    if count == 0 || p <= 0.0 then 0.0 else CellValue(|hist|, First(hist, Target(count, p)))
  }

  /** The display clamp: no percentile above the recorded maximum. */
  function Clamp(e: real, maxUs: u32): real {
    if maxUs > 0 && e > maxUs as real then maxUs as real else e
  }

  // The bucket found is the bucket of the sample at the target rank.

  function Below(b: nat): u32 -> int {
    (x: u32) => if Bucket(x) < b then 1 else 0
  }

  function AtMostU32(): (u32, u32) -> bool {
    (x: u32, y: u32) => x <= y
  }

  lemma {:induction false} SumOfIndicators<T>(s: seq<T>, f: T -> int)
    requires forall i :: 0 <= i < |s| ==> 0 <= f(s[i]) <= 1
    ensures 0 <= SumSeq(s, f) <= |s|
    ensures (forall i :: 0 <= i < |s| ==> f(s[i]) == 1) ==> SumSeq(s, f) == |s|
    ensures (forall i :: 0 <= i < |s| ==> f(s[i]) == 0) ==> SumSeq(s, f) == 0
  {
    if s != [] {
      var n := |s| - 1;
      SumOfIndicators(s[..n], f);
    }
  }

  lemma {:induction false} BelowNext(xs: seq<u32>, b: nat)
    ensures SumSeq(xs, Below(b + 1)) == SumSeq(xs, Below(b)) + SumSeq(xs, InBucket(b))
  {
    if xs != [] {
      BelowNext(xs[..|xs| - 1], b);
    }
  }

  /** While fewer than 2^32 samples were recorded no counter wraps. */
  lemma {:induction false} CumulativeCounts(xs: seq<u32>, b: nat)
    requires |xs| < TWO32
    requires b <= BUCKETS
    ensures Cumulative(AccOf(xs).hist, b) == SumSeq(xs, Below(b))
  {
    SumOfIndicators(xs, Below(b));
    if b > 0 {
      CumulativeCounts(xs, b - 1);
      AccCells(xs, b - 1);
      SumOfIndicators(xs, InBucket(b - 1));
      BelowNext(xs, b - 1);
    }
  }

  ghost predicate Ascending(ys: seq<u32>) {
    forall i, j :: 0 <= i < j < |ys| ==> ys[i] <= ys[j]
  }

  lemma RankInside(ys: seq<u32>, t: nat, b: nat)
    requires Ascending(ys)
    requires 1 <= t <= |ys| && Bucket(ys[t - 1]) < b
    ensures SumSeq(ys, Below(b)) >= t
  {
    var front, rest := ys[..t], ys[t..];
    forall i | 0 <= i < |front| ensures Below(b)(front[i]) == 1 {
      BucketMonotone(front[i], ys[t - 1]);
    }
    assert ys == front + rest;
    SumSeqConcat(front, rest, Below(b));
    SumOfIndicators(front, Below(b));
    SumOfIndicators(rest, Below(b));
  }

  lemma RankOutside(ys: seq<u32>, t: nat, b: nat)
    requires Ascending(ys)
    requires 1 <= t <= |ys| && Bucket(ys[t - 1]) >= b
    ensures SumSeq(ys, Below(b)) < t
  {
    var rest := ys[t - 1..];
    forall i | 0 <= i < |rest| ensures Below(b)(rest[i]) == 0 {
      BucketMonotone(ys[t - 1], ys[t - 1 + i]);
    }
    assert ys == ys[..t - 1] + rest;
    SumSeqConcat(ys[..t - 1], rest, Below(b));
    SumOfIndicators(ys[..t - 1], Below(b));
    SumOfIndicators(rest, Below(b));
  }

  lemma RankBucket(xs: seq<u32>, ys: seq<u32>, t: nat)
    requires |xs| < TWO32
    requires SortedCopy(ys, xs, AtMostU32())
    requires 1 <= t <= |xs|
    ensures |ys| == |xs|
    ensures First(AccOf(xs).hist, t) == Bucket(ys[t - 1])
  {
    SortedLength(ys, xs);
    var hist := AccOf(xs).hist;
    assert Ascending(ys) by {
      forall i, j | 0 <= i < j < |ys| ensures ys[i] <= ys[j] {
        assert AtMostU32()(ys[i], ys[j]);
      }
    }
    forall b | 0 <= b <= BUCKETS
      ensures Cumulative(hist, b) >= t <==> Bucket(ys[t - 1]) < b
    {
      CumulativeCounts(xs, b);
      SumSeqPermutes(xs, ys, Below(b));
      if Bucket(ys[t - 1]) < b {
        RankInside(ys, t, b);
      } else {
        RankOutside(ys, t, b);
      }
    }
    var i := First(hist, t);
    assert Cumulative(hist, Bucket(ys[t - 1]) + 1) >= t;
    assert i < |hist| ==> Cumulative(hist, i + 1) >= t;
  }
}
