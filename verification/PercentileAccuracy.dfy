/** How far the histogram percentile can be from the exact percentile of the samples. */
module PercentileAccuracy {
  import opened Machine
  import opened Bucketing
  import opened Sorting
  import opened RttValues
  import opened Percentile

  // The midpoint of a bucket.

  lemma MidpointValue(i: nat)
    requires 1 <= i < BUCKETS
    ensures 2.0 * Midpoint(i) == 3.0 * (Pow2(i) as real)
  {
    hide Pow2, Shl, Wrap64;
    EdgesOf(i);
    WrapSmall64(3 * Pow2(i));
  }

  /** The two edges of a bucket, as shifts, add up to three times the lower one, within a word. */
  lemma EdgesOf(i: nat)
    requires 1 <= i < BUCKETS
    ensures Shl(i) + Shl(i + 1) == 3 * Pow2(i) < TWO64
  {
    hide Wrap64;
    Pow2Monotone(i, 26);
    PowerOf26();
  }

  /** What is shown for each cell: the middle of its two edges, 1 for the first, and 2^26 beyond all. */
  lemma CellValuesAre(i: nat)
    requires i <= 27
    ensures i == 0 ==> CellValue(27, i) == 1.0
    ensures 1 <= i < 27 ==> CellValue(27, i) == (Pow2(i) + Pow2(i + 1)) as real / 2.0
    ensures i == 27 ==> CellValue(27, i) == 67108864.0
  {
    PowerOf26();
    if 1 <= i < 27 {
      MidpointValue(i);
    }
  }

  /** A bucket's midpoint against any sample of that bucket. */
  lemma MidpointError(x: u32)
    requires x > 0
    ensures 2.0 * Midpoint(Bucket(x)) <= 3.0 * (x as real)
    ensures x < Pow2(27) ==> 3.0 * (x as real) < 4.0 * Midpoint(Bucket(x))
    ensures x < Pow2(29) ==> 3.0 * (x as real) < 16.0 * Midpoint(Bucket(x))
  {
    var b := Bucket(x);
    BucketCovers(x, b);
    if b > 0 {
      MidpointValue(b);
    }
    if b == 26 {
      assert Pow2(29) == 4 * Pow2(27);
      assert Pow2(27) == 2 * Pow2(26);
    }
  }

  /** Main result: for any positive samples, in any order, the reported (clamped) value e at any
      target rank and the exact sample x at that rank satisfy 2e <= 3x; 3x < 4e while x lies below
      the open last bucket's nominal edge, and 3x < 16e over the whole range of the probe. */
  lemma HistogramErrorBound(xs: seq<u32>, ys: seq<u32>, t: nat)
    requires Positive(xs) && |xs| < TWO32
    requires SortedCopy(ys, xs, AtMostU32())
    requires 1 <= t <= |xs|
    ensures |ys| == |xs|
    ensures
      var x, e := ys[t - 1] as real, Clamp(CellValue(27, First(AccOf(xs).hist, t)), AccOf(xs).maxUs);
      && 2.0 * e <= 3.0 * x
      && (ys[t - 1] < Pow2(27) ==> 3.0 * x < 4.0 * e)
      && (ys[t - 1] < Pow2(29) ==> 3.0 * x < 16.0 * e)
  {
    RankBucket(xs, ys, t);
    var x := ys[t - 1];
    assert x in multiset(ys);
    assert x in multiset(xs);
    AccExtremes(xs);
    MidpointError(x);
  }

  // The exact percentile.

  function AtMostU64(): (u64, u64) -> bool {
    (x: u64, y: u64) => x <= y
  }

  /** The nearest rank, as a zero-based index. */
  function SampleRank(n: nat, p: real): (rank: nat)
    requires n > 0
    ensures rank < n
  {
    var rank := (Scaled(n, p) + 0.5).Floor - 1;
    if rank < 0 then 0 else if rank >= n then n - 1 else rank
  }

  method PercentileFromSamples(samples: seq<u64>, p: real) returns (r: real)
    ensures samples == [] ==> r == 0.0
    ensures samples != [] && p <= 0.0 ==> r == samples[0] as real
    ensures samples != [] && p > 0.0 ==>
              forall ys :: SortedCopy(ys, samples, AtMostU64()) ==>
                |ys| == |samples| && r == ys[SampleRank(|samples|, p)] as real
  {
    if |samples| == 0 {
      return 0.0;
    }
    if p <= 0.0 {
      return samples[0] as real;
    }
    var sorted := Sort(samples, AtMostU64());
    SortedLength(sorted, samples);
    var rank := (Scaled(|sorted|, p) + 0.5).Floor - 1;
    if rank < 0 {
      rank := 0;
    }
    if rank >= |sorted| {
      rank := |sorted| - 1;
    }
    forall ys | SortedCopy(ys, samples, AtMostU64())
      ensures ys == sorted
    {
      SortedUnique(ys, sorted, AtMostU64());
    }
    r := sorted[rank] as real;
  }

  // The ranks, in terms of count and probability alone.

  /** The histogram's rank is count * p rounded down, but at least one. */
  lemma TargetIsFloor(n: nat, p: real)
    requires n > 0 && p > 0.0
    ensures p <= 1.0 && n as real * p >= 1.0 ==> Target(n, p) as real <= n as real * p < Target(n, p) as real + 1.0
    ensures p <= 1.0 && n as real * p < 1.0 ==> Target(n, p) == 1
    ensures p >= 1.0 ==> Target(n, p) == n
  {
    ScaledBound(n, p);
  }

  /** The exact rank is count * p rounded to the nearest, halves up, but at least one. */
  lemma SampleRankIsNearest(n: nat, p: real)
    requires n > 0 && p > 0.0
    ensures p <= 1.0 && n as real * p >= 0.5 ==>
              n as real * p - 0.5 < (SampleRank(n, p) + 1) as real <= n as real * p + 0.5
    ensures p <= 1.0 && n as real * p < 0.5 ==> SampleRank(n, p) == 0
    ensures p >= 1.0 ==> SampleRank(n, p) == n - 1
  {
    ScaledBound(n, p);
  }

  // Agreement of the two.

  /** The histogram's rank is the exact rank or the one below it; which of the two is decided by
      the fractional part of count * p. */
  lemma RanksAgree(n: nat, p: real)
    requires n > 0 && p > 0.0
    ensures Target(n, p) <= SampleRank(n, p) + 1 <= Target(n, p) + 1
    ensures SampleRank(n, p) + 1 == Target(n, p) <==>
            Scaled(n, p) < 1.0 || Scaled(n, p) - Scaled(n, p).Floor as real < 0.5
  {
    ScaledBound(n, p);
  }

  lemma ScaledBound(n: nat, p: real)
    requires n > 0 && p > 0.0
    ensures 0.0 < Scaled(n, p) <= n as real
  {
    var q := if p > 1.0 then 1.0 else p;
    assert n as real * (1.0 - q) >= 0.0;
    assert n as real * q > 0.0;
  }

  /** For all positive samples the unclamped histogram percentile never exceeds 3/2 of the exact one.
      When the ranks coincide, the exact one is below 4/3 of it if it is below 2^27, whatever the other
      samples are, and below 16/3 of it over the whole range of the probe. */
  lemma HistogramAgreesWithSamples(xs: seq<u32>, ys: seq<u32>, p: real)
    requires Positive(xs) && 0 < |xs| < TWO32
    requires SortedCopy(ys, xs, AtMostU32())
    requires p > 0.0
    ensures |ys| == |xs|
    ensures
      var rank, hist := SampleRank(|xs|, p), HistPercentile(AccOf(xs).hist, |xs|, p);
      var exact := ys[rank] as real;
      && 2.0 * hist <= 3.0 * exact
      && (rank + 1 == Target(|xs|, p) ==>
            && (ys[rank] < Pow2(27) ==> 3.0 * exact < 4.0 * hist)
            && (ys[rank] < Pow2(29) ==> 3.0 * exact < 16.0 * hist))
  {
    var t := Target(|xs|, p);
    RankBucket(xs, ys, t);
    RanksAgree(|xs|, p);
    var x := ys[t - 1];
    assert x in multiset(ys);
    assert x in multiset(xs);
    MidpointError(x);
    var rank := SampleRank(|xs|, p);
    assert rank > t - 1 ==> AtMostU32()(x, ys[rank]);
  }

  // Order of two percentiles of one histogram.

  lemma CumulativeMonotone(hist: seq<u32>, i: nat, j: nat)
    requires |hist| <= 27 && i <= j <= |hist|
    ensures Cumulative(hist, i) <= Cumulative(hist, j) <= j * 0xFFFF_FFFF
    decreases j
  {
    if j > 0 {
      CumulativeMonotone(hist, if i < j then i else j - 1, j - 1);
    }
  }

  lemma CellValuesOrdered(i: nat, j: nat)
    requires i <= j <= 27
    ensures CellValue(27, i) <= CellValue(27, j) <==> !(i == 26 && j == 27)
  {
    PowerOf26();
    if 0 < i < 27 { MidpointValue(i); Pow2Monotone(i, 26); }
    if 0 < j < 27 { MidpointValue(j); }
    if i < j < 27 { Pow2Monotone(i, j); }
    if i < 26 { Pow2Monotone(i, 25); assert 2 * Pow2(25) == Pow2(26); }
  }

  lemma FirstMonotone(hist: seq<u32>, s: nat, t: nat, i: nat)
    requires i <= |hist| && s <= t
    ensures FirstFrom(hist, s, i) <= FirstFrom(hist, t, i)
  {
  }

  lemma TargetMonotone(count: nat, p: real, q: real)
    requires count > 0 && 0.0 < p <= q
    ensures Target(count, p) <= Target(count, q)
  {
    var p1, q1 := if p > 1.0 then 1.0 else p, if q > 1.0 then 1.0 else q;
    assert count as real * (q1 - p1) >= 0.0;
  }

  /** The higher percentile is the higher value exactly unless the lower rank falls into the last
      cell while the higher rank is beyond all the recorded samples: the fallback value 2^26 lies
      below the last midpoint. Which case it is can be read off the cells beforehand. */
  lemma PercentilesOrdered(hist: Hist, count: u64, p: real, q: real)
    requires count > 0 && 0.0 < p <= q
    ensures HistPercentile(hist, count, p) <= HistPercentile(hist, count, q) <==>
            !(Cumulative(hist, 26) < Target(count, p) <= Cumulative(hist, 27) < Target(count, q))
  {
    var s, t := Target(count, p), Target(count, q);
    TargetMonotone(count, p, q);
    FirstMonotone(hist, s, t, 0);
    CellValuesOrdered(First(hist, s), First(hist, t));
    FirstMeaning(hist, s);
    FirstMeaning(hist, t);
  }

  lemma FirstMeaning(hist: Hist, t: nat)
    requires t > 0
    ensures First(hist, t) == 26 <==> Cumulative(hist, 26) < t <= Cumulative(hist, 27)
    ensures First(hist, t) == 27 <==> Cumulative(hist, 27) < t
  {
    var i := First(hist, t);
    CumulativeMonotone(hist, 26, 27);
    if i < 26 {
      CumulativeMonotone(hist, i + 1, 26);
    }
  }
}
