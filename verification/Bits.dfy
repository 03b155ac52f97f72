/** Powers of two, base-2 logarithms and the rounding the allocator writes with masks. */
module Bits {

  /** 2^16 and 2^64: where 16-bit fields and sizes wrap around. */
  const UINT16_LIMIT: nat := 0x1_0000
  const SIZE_LIMIT: nat := 0x1_0000_0000_0000_0000

  function Pow2(n: nat): (p: nat)
    ensures p >= 1
  {
    if n == 0 then 1 else 2 * Pow2(n - 1)
  }

  /** `63 - clz(n)` for a nonzero word. */
  function Log2(n: nat): (b: nat)
    requires n > 0
    ensures Pow2(b) <= n < Pow2(b + 1)
  {
    if n == 1 then 0 else 1 + Log2(n / 2)
  }

  ghost predicate IsPow2(n: nat) {
    exists k: nat :: n == Pow2(k)
  }

  /** A power of two is the power its logarithm names. */
  lemma IsPow2Log(n: nat)
    requires IsPow2(n)
    ensures n > 0 && n == Pow2(Log2(n))
  {
    var k: nat :| n == Pow2(k);
    Log2Unique(n, k);
  }

  /** IS_POWER_OF_TWO. */
  predicate PowerOfTwo(n: nat)
    ensures PowerOfTwo(n) <==> IsPow2(n)
  {
    var r := n > 0 && n == Pow2(Log2(n));
    assert r <==> IsPow2(n) by {
      if IsPow2(n) {
        IsPow2Log(n);
      }
    }
    r
  }

  lemma Pow2Next(n: nat)
    ensures Pow2(n + 1) == 2 * Pow2(n)
  {
  }

  lemma {:induction false} Pow2Add(a: nat, b: nat)
    ensures Pow2(a + b) == Pow2(a) * Pow2(b)
  {
    if a == 0 {
    } else {
      Pow2Add(a - 1, b);
      assert 2 * (Pow2(a - 1) * Pow2(b)) == (2 * Pow2(a - 1)) * Pow2(b);
    }
  }

  lemma {:induction false} Pow2Mono(a: nat, b: nat)
    requires a <= b
    ensures Pow2(a) <= Pow2(b)
  {
    if a < b {
      Pow2Mono(a, b - 1);
    }
  }

  lemma Pow2Strict(a: nat, b: nat)
    requires a < b
    ensures 2 * Pow2(a) <= Pow2(b)
  {
    Pow2Mono(a + 1, b);
  }

  /** The logarithm is pinned down by its two bounds. */
  lemma Log2Unique(n: nat, b: nat)
    requires Pow2(b) <= n < Pow2(b + 1)
    ensures n > 0 && Log2(n) == b
  {
    if Log2(n) < b {
      Pow2Mono(Log2(n) + 1, b);
    } else if Log2(n) > b {
      Pow2Mono(b + 1, Log2(n));
    }
  }

  lemma Log2Pow2(b: nat)
    ensures Log2(Pow2(b)) == b && IsPow2(Pow2(b))
  {
    Log2Unique(Pow2(b), b);
  }

  lemma Pow2Divides(a: nat, b: nat)
    requires a <= b
    ensures Pow2(b) == Pow2(a) * Pow2(b - a)
    ensures Pow2(b) % Pow2(a) == 0 && Pow2(b) / Pow2(a) == Pow2(b - a)
  {
    Pow2Add(a, b - a);
    MulDiv(Pow2(a), Pow2(b - a));
  }

  lemma MulDiv(d: nat, q: nat)
    requires d > 0
    ensures (d * q) / d == q && (d * q) % d == 0
  {
    DivUnique(d * q, d, q, 0);
  }

  lemma MulDivRight(q: nat, d: nat)
    requires d > 0
    ensures (q * d) / d == q && (q * d) % d == 0
  {
    MulDiv(d, q);
  }

  /** Quotient and remainder are pinned down by `x == d * q + r` with `r < d`. */
  lemma DivUnique(x: nat, d: nat, q: nat, r: nat)
    requires d > 0 && r < d && x == d * q + r
    ensures x / d == q && x % d == r
  {
    assert x == d * (x / d) + x % d;
    var k := x / d - q;
    assert d * k == r - x % d;
    assert k >= 1 ==> d * k >= d;
    assert k <= -1 ==> d * k <= d * -1;
  }

  /** The largest multiple of `d` up to `x`: what masking off low bits gives for a power of two. */
  function FloorTo(x: nat, d: nat): (y: nat)
    requires d > 0
    ensures y <= x < y + d && y % d == 0
  {
    var q := x / d;
    assert x == d * q + x % d;
    MulDiv(d, q);
    d * q
  }

  /** `ALIGN_UP` without wrap-around. */
  function AlignUp(x: nat, align: nat): (y: nat)
    requires align > 0
    ensures x <= y < x + align && y % align == 0
  {
    FloorTo(x + align - 1, align)
  }

  /** A product of powers of two is one. */
  lemma Pow2Mul(x: nat, y: nat, p: nat)
    requires IsPow2(x) && IsPow2(y) && p == x * y
    ensures p == Pow2(Log2(x) + Log2(y)) && IsPow2(p)
  {
    IsPow2Log(x);
    IsPow2Log(y);
    Pow2Add(Log2(x), Log2(y));
  }

  /** Of two powers of two, the smaller divides the larger. */
  lemma SmallerDivides(x: nat, y: nat)
    requires IsPow2(x) && IsPow2(y) && x <= y
    ensures 0 < x && y % x == 0
  {
    hide Log2;
    IsPow2Log(x);
    IsPow2Log(y);
    if Log2(x) > Log2(y) {
      Pow2Strict(Log2(y), Log2(x));
    }
    Pow2Divides(Log2(x), Log2(y));
  }

  lemma AlignUpExact(x: nat, align: nat)
    requires align > 0 && x % align == 0
    ensures AlignUp(x, align) == x
  {
    var y := AlignUp(x, align);
    assert x == align * (x / align) && y == align * (y / align);
    var k := y / align - x / align;
    assert y - x == align * k;
    assert k >= 1 ==> align * k >= align;
    assert k <= -1 ==> align * k <= align * -1;
  }

  lemma MulMono(a: nat, b: nat, c: nat)
    requires a <= b
    ensures a * c <= b * c && c * a <= c * b
  {
  }

  /** A multiple of a multiple is a multiple. */
  lemma ModTrans(x: nat, a: nat, b: nat)
    requires a > 0 && b > 0 && x % b == 0 && b % a == 0
    ensures x % a == 0
  {
    var q, r := x / b, b / a;
    assert x == b * q && b == a * r;
    assert x == a * (r * q) by {
      assert (a * r) * q == a * (r * q);
    }
    MulDiv(a, r * q);
  }

  lemma ModAdd(x: nat, y: nat, d: nat)
    requires d > 0 && x % d == 0 && y % d == 0
    ensures (x + y) % d == 0
  {
    var a, b := x / d, y / d;
    assert x + y == d * (a + b);
    MulDiv(d, a + b);
  }

  lemma PositiveMultiple(n: nat, d: nat)
    requires d > 0 && n > 0 && n % d == 0
    ensures d <= n
  {
    var q := n / d;
    assert n == d * q;
    assert q == 0 ==> d * q == 0;
    MulMono(1, q, d);
  }

  lemma MulCancel(d: nat, a: nat, b: nat)
    requires d > 0 && d * b <= d * a
    ensures b <= a
  {
    assert a + 1 <= b ==> d * (a + 1) <= d * b;
  }

  lemma ModSub(x: nat, y: nat, d: nat)
    requires d > 0 && x % d == 0 && y % d == 0 && y <= x
    ensures (x - y) % d == 0
  {
    var a, b := x / d, y / d;
    assert x == d * a && y == d * b;
    MulCancel(d, a, b);
    assert x - y == d * (a - b);
    MulDiv(d, a - b);
  }

  // ----- sets of numbers -----

  /** The first `n` numbers. */
  function FirstN(n: nat): (r: set<nat>)
    ensures |r| == n
    ensures forall x: nat :: x in r <==> x < n
  {
    if n == 0 then {} else FirstN(n - 1) + {n - 1}
  }

  lemma Subset(a: set<nat>, b: set<nat>)
    requires a <= b
    ensures |a| <= |b|
  {
    assert b == a + (b - a);
    assert |b| == |a| + |b - a|;
  }

  lemma Smaller(a: set<nat>, b: set<nat>)
    requires a < b
    ensures |a| < |b|
  {
    assert b == a + (b - a) && b - a != {};
    assert |b| == |a| + |b - a|;
  }
}
