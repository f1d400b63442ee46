/** The fixed-width arithmetic of the C and Go sources: unsigned words that wrap around. */
module Machine {

  const TWO32: int := 0x1_0000_0000
  const TWO64: int := 0x1_0000_0000_0000_0000

  /** The capacity of each of the kernel's hash maps. */
  const MAX_ENTRIES: nat := 65536

  type u8 = x: int | 0 <= x < 0x100
  type u16 = x: int | 0 <= x < 0x1_0000
  type u32 = x: int | 0 <= x < 0x1_0000_0000
  type u64 = x: int | 0 <= x < 0x1_0000_0000_0000_0000

  /** Truncation of an integer to 32 and to 64 bits. */
  function Wrap32(x: int): u32 {
    x % 0x1_0000_0000
  }

  function Wrap64(x: int): u64 {
    x % 0x1_0000_0000_0000_0000
  }

  function Add32(a: u32, b: u32): u32 {
    if a + b < TWO32 then a + b else a + b - TWO32
  }

  function Add64(a: u64, b: u64): u64 {
    if a + b < TWO64 then a + b else a + b - TWO64
  }

  /** Unsigned subtraction: below zero it wraps to the top of the range. */
  function Sub64(a: u64, b: u64): u64 {
    if a >= b then a - b else a - b + TWO64
  }

  function Max(a: int, b: int): int {
    if a < b then b else a
  }

  /** A value that differs from `x` by whole words wraps to the same word. */
  lemma WrapShift64(x: int, k: int)
    ensures Wrap64(x + k * 0x1_0000_0000_0000_0000) == Wrap64(x)
  {
    var q, r := x / 0x1_0000_0000_0000_0000, x % 0x1_0000_0000_0000_0000;
    assert x + k * 0x1_0000_0000_0000_0000 == (q + k) * 0x1_0000_0000_0000_0000 + r;
  }

  lemma WrapShift32(x: int, k: int)
    ensures Wrap32(x + k * 0x1_0000_0000) == Wrap32(x)
  {
    var q, r := x / 0x1_0000_0000, x % 0x1_0000_0000;
    assert x + k * 0x1_0000_0000 == (q + k) * 0x1_0000_0000 + r;
  }

  lemma WrapSmall64(x: int)
    requires 0 <= x < TWO64
    ensures Wrap64(x) == x
  {
  }

  lemma WrapMultiple64(x: u64, k: nat)
    ensures Wrap64(x + TWO64 * k) == x
    ensures x + TWO64 * k == x <==> k == 0
  {
    WrapShift64(x, k);
  }

  /** Wrapping each operand first does not change the wrapped result. */
  lemma WrapAdd64(a: int, b: int)
    ensures Add64(Wrap64(a), Wrap64(b)) == Wrap64(a + b)
  {
    var x, y := Wrap64(a), Wrap64(b);
    WrapShift64(x + y, a / 0x1_0000_0000_0000_0000 + b / 0x1_0000_0000_0000_0000);
    WrapShift64(Add64(x, y), if x + y < TWO64 then 0 else 1);
  }

  lemma WrapNext64(sum: int, b: u64)
    ensures Wrap64(sum + b) == Add64(Wrap64(sum), b)
  {
    WrapAdd64(sum, b);
  }

  lemma WrapAdd32(a: int, b: int)
    ensures Add32(Wrap32(a), Wrap32(b)) == Wrap32(a + b)
  {
    var x, y := Wrap32(a), Wrap32(b);
    WrapShift32(x + y, a / 0x1_0000_0000 + b / 0x1_0000_0000);
    WrapShift32(Add32(x, y), if x + y < TWO32 then 0 else 1);
  }

  lemma WrapNext32(sum: int, b: u32)
    ensures Wrap32(sum + b) == Add32(Wrap32(sum), b)
  {
    WrapAdd32(sum, b);
  }

  lemma AddAssociates32(a: u32, b: u32, c: u32)
    ensures Add32(Add32(a, b), c) == Add32(a, Add32(b, c))
  {
  }

  lemma AddAssociates64(a: u64, b: u64, c: u64)
    ensures Add64(Add64(a, b), c) == Add64(a, Add64(b, c))
  {
  }

  function Pow2(n: nat): (p: nat)
    ensures p >= 1
  {
    if n == 0 then 1 else 2 * Pow2(n - 1)
  }

  lemma {:induction false} Pow2Monotone(m: nat, n: nat)
    requires m <= n
    ensures Pow2(m) <= Pow2(n)
    decreases n
  {
    if m < n {
      Pow2Monotone(m, n - 1);
    }
  }

  // Division.

  lemma DivideTwice(v: nat, d: nat, h: nat)
    requires d > 0 && h > 0
    ensures v / (d * h) == (v / d) / h
  {
    var q, r, s := (v / d) / h, (v / d) % h, v % d;
    assert v / d == q * h + r;
    ScaleGap(r, h, d);
    Regroup(q, h, r, d);
    PositiveProduct(d, h);
    QuotientUnique(v, d * h, q, r * d + s);
  }

  lemma PositiveProduct(d: nat, h: nat)
    requires d > 0 && h > 0
    ensures d * h > 0 && d * h == h * d
  {
  }

  lemma Regroup(q: int, h: int, r: int, d: int)
    ensures (q * h + r) * d == q * (d * h) + r * d
  {
  }

  lemma QuotientUnique(v: int, d: int, q: int, r: int)
    requires d > 0 && 0 <= r < d && v == q * d + r
    ensures v / d == q
  {
    var q0, r0 := v / d, v % d;
    assert v == q0 * d + r0;
    if q > q0 {
      ScaleGap(q0, q, d);
    } else if q < q0 {
      ScaleGap(q, q0, d);
    }
  }

  lemma {:induction false} ScaleGap(a: int, b: int, d: int)
    requires d > 0 && a < b
    ensures a * d + d <= b * d
    decreases b - a
  {
    if a + 1 < b {
      ScaleGap(a, b - 1, d);
    }
    assert b * d == (b - 1) * d + d;
  }
}
