/** The log2 histogram buckets of the eBPF probes: bucket i covers [2^i, 2^(i+1)) microseconds. */
module Bucketing {
  import opened Machine

  const BUCKETS: nat := 27

  /** Integer logarithm, by halving. */
  function Log2(v: nat): nat {
    if v < 2 then 0 else 1 + Log2(v / 2)
  }

  lemma {:induction false} Log2Bounds(v: nat)
    requires v >= 1
    ensures Pow2(Log2(v)) <= v < Pow2(Log2(v) + 1)
  {
    if v >= 2 {
      Log2Bounds(v / 2);
    }
  }

  lemma {:induction false} Log2Monotone(v: nat, w: nat)
    requires v <= w
    ensures Log2(v) <= Log2(w)
    decreases w
  {
    if w >= 2 && v >= 2 {
      Log2Monotone(v / 2, w / 2);
    }
  }

  lemma {:induction false} Log2Shift(v: nat, k: nat)
    requires v >= Pow2(k)
    ensures Log2(v) == k + Log2(v / Pow2(k))
    decreases k
  {
    if k > 0 {
      var h := Pow2(k - 1);
      assert v / 2 >= h;
      Log2Shift(v / 2, k - 1);
      DivideTwice(v, 2, h);
    }
  }

  /** The shifts the probe uses. */
  lemma Log2Shifts(v: nat, d: nat, k: nat)
    requires (d == 0x10000 && k == 16) || (d == 0x100 && k == 8) || (d == 0x10 && k == 4) || (d == 4 && k == 2)
    requires v >= d
    ensures Log2(v) == k + Log2(v / d)
  {
    assert Pow2(4) == 16;
    assert Pow2(8) == 16 * Pow2(4);
    assert Pow2(12) == 16 * Pow2(8);
    assert Pow2(16) == 16 * Pow2(12);
    assert d == Pow2(k);
    Log2Shift(v, k);
  }

  lemma PowerOf26()
    ensures Pow2(26) == 0x400_0000
  {
    assert Pow2(8) == 0x100;
    assert Pow2(16) == 0x100 * Pow2(8);
    assert Pow2(24) == 0x100 * Pow2(16);
  }

  lemma Log2Small(v: nat)
    requires v < 4
    ensures Log2(v) == if v >= 2 then 1 else 0
  {
  }

  /** The branch-and-shift logarithm of the probe: every shift is accounted for in `r`. */
  method RttLog2(v0: u32) returns (r: nat)
    ensures v0 == 0 ==> r == 0
    ensures v0 >= 1 ==> Pow2(r) <= v0 < Pow2(r + 1)
    ensures r == Log2(v0)
  {
    if v0 == 0 {
      return 0;
    }
    var v: nat := v0;
    r := 0;
    if v >= 0x10000 {
      Log2Shifts(v, 0x10000, 16);
      r := r + 16;
      v := v / 0x10000;
    }
    assert v < 0x10000 && Log2(v0) == r + Log2(v);
    if v >= 0x100 {
      Log2Shifts(v, 0x100, 8);
      r := r + 8;
      v := v / 0x100;
    }
    assert v < 0x100 && Log2(v0) == r + Log2(v);
    if v >= 0x10 {
      Log2Shifts(v, 0x10, 4);
      r := r + 4;
      v := v / 0x10;
    }
    assert v < 0x10 && Log2(v0) == r + Log2(v);
    if v >= 4 {
      Log2Shifts(v, 4, 2);
      r := r + 2;
      v := v / 4;
    }
    Log2Small(v);
    if v >= 2 {
      r := r + 1;
    }
    Log2Bounds(v0);
  }

  /** The capped bucket index. */
  function Bucket(v: nat): (b: nat)
    ensures b < BUCKETS
  {
    if Log2(v) >= BUCKETS then BUCKETS - 1 else Log2(v)
  }

  lemma Log2AtLeast(v: nat, b: nat)
    requires v >= 1
    ensures Log2(v) >= b <==> Pow2(b) <= v
  {
    Log2Bounds(v);
    if Log2(v) >= b {
      Pow2Monotone(b, Log2(v));
    } else {
      Pow2Monotone(Log2(v) + 1, b);
    }
  }

  /** Every microsecond value falls into the bucket that covers it; the last one is open above. */
  lemma BucketCovers(v: nat, b: nat)
    requires v >= 1
    ensures Bucket(v) == b <==>
            b < BUCKETS && Pow2(b) <= v && (b < BUCKETS - 1 ==> v < Pow2(b + 1))
  {
    Log2AtLeast(v, b);
    Log2AtLeast(v, b + 1);
  }

  lemma BucketMonotone(v: nat, w: nat)
    requires v <= w
    ensures Bucket(v) <= Bucket(w)
  {
    Log2Monotone(v, w);
  }
}
