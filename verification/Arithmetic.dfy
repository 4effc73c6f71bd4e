/** Powers of two, floor logarithms and mixed-radix decoding: the arithmetic behind
    the shifts and masks of the allocator. A right shift by `n` is a division by
    `Pow2(n)`, and a mask with `Pow2(n) - 1` is a remainder modulo `Pow2(n)`. */
module Arithmetic {

  const WORD: nat := 0x1_0000_0000   // 32 bits

  function Pow2(n: nat): (p: nat)
    ensures p > 0
  {
    if n == 0 then 1 else 2 * Pow2(n - 1)
  }

  /** Position of the highest set bit: `8 * sizeof(x) - clz(x) - 1`. */
  function Log2(x: nat): nat
    requires x > 0
  {
    if x == 1 then 0 else 1 + Log2(x / 2)
  }

  function Quotient(x: nat, d: nat): nat
    requires d > 0
  {
    x / d
  }

  /** `x >> bits` */
  function Shr(x: nat, bits: nat): nat { Quotient(x, Pow2(bits)) }

  /** `x & ((1 << bits) - 1)` */
  function Mask(x: nat, bits: nat): nat { x % Pow2(bits) }

  /** `x << bits` */
  function Shl(x: nat, bits: nat): nat { x * Pow2(bits) }

  lemma {:induction false} Pow2Add(a: nat, b: nat)
    ensures Pow2(a + b) == Pow2(a) * Pow2(b)
  {
    if a > 0 {
      Pow2Add(a - 1, b);
      assert Pow2(a + b) == 2 * Pow2(a - 1 + b);
    }
  }

  lemma {:induction false} Pow2Monotone(a: nat, b: nat)
    requires a <= b
    ensures Pow2(a) <= Pow2(b)
    decreases b
  {
    if a < b { Pow2Monotone(a, b - 1); }
  }

  lemma {:induction false} Pow2Strict(a: nat, b: nat)
    requires a < b
    ensures 2 * Pow2(a) <= Pow2(b)
  {
    Pow2Monotone(a + 1, b);
  }

  /** `Log2` brackets its argument between consecutive powers of two. */
  lemma {:induction false} Log2Bounds(x: nat)
    requires x > 0
    ensures Pow2(Log2(x)) <= x < Pow2(Log2(x) + 1)
  {
    if x > 1 { Log2Bounds(x / 2); }
  }

  lemma {:induction false} Log2Pow2(n: nat)
    ensures Log2(Pow2(n)) == n
  {
    if n > 0 { Log2Pow2(n - 1); }
  }

  lemma MulMonotone(a: int, b: int, d: int)
    requires a <= b && 0 <= d
    ensures a * d <= b * d
  {
    assert b * d - a * d == (b - a) * d;
  }

  /** Distinct multiples of `d` are at least `d` apart. */
  lemma MulGap(a: int, b: int, d: int)
    requires a < b && 0 <= d
    ensures a * d + d <= b * d
  {
    MulMonotone(a + 1, b, d);
    assert (a + 1) * d == a * d + d;
  }

  /** Quotient and remainder are the only digits of a number in base `d`. */
  lemma DivModUnique(a: int, d: int, q: int, r: int)
    requires a == q * d + r && 0 <= r < d
    ensures a / d == q && a % d == r
  {
    var q', r' := a / d, a % d;
    assert q * d - q' * d == r' - r;
    if q > q' {
      MulGap(q', q, d);
    } else if q < q' {
      MulGap(q, q', d);
    }
  }

  /** Two digits never overflow their place value. */
  lemma DigitsBound(hi: int, lo: int, n: int, d: int)
    requires 0 <= hi < n && 0 <= lo < d
    ensures 0 <= hi * d + lo < n * d
  {
    MulGap(hi, n, d);
    MulMonotone(0, hi, d);
  }

  /** A number below `n * d` has two digits. */
  lemma TwoDigits(x: nat, n: nat, d: nat) returns (hi: nat, lo: nat)
    requires x < n * d
    ensures hi < n && lo < d && x == hi * d + lo
  {
    hi, lo := x / d, x % d;
    if hi >= n { MulMonotone(n, hi, d); }
  }

  lemma MulCommutes(x: int, y: int)
    ensures x * y == y * x
  {
  }

  lemma MulAssoc(a: int, b: int, c: int)
    ensures (a * b) * c == a * (b * c)
  {
  }

  lemma MulDistrib(a: int, b: int, c: int)
    ensures (a + b) * c == a * c + b * c
  {
  }

  lemma MulMod(a: int, d: int)
    requires d > 0
    ensures (a * d) % d == 0 && (a * d) / d == a
  {
    DivModUnique(a * d, d, a, 0);
  }

  lemma DivMonotone(a: nat, b: nat, d: nat)
    requires a <= b && d > 0
    ensures a / d <= b / d
  {
    if b / d < a / d { MulGap(b / d, a / d, d); }
  }

  /** A remainder modulo a multiple of `d` keeps the remainder modulo `d`. */
  lemma ModMod(a: int, c: int, d: int)
    requires c > 0 && d > 0
    ensures c * d > 0 && (a % (c * d)) % d == a % d
  {
    MulMonotone(1, c, d);
    var q, r := a / (c * d), a % (c * d);
    assert a == q * (c * d) + r;
    assert a == (q * c + r / d) * d + r % d by {
      MulAssoc(q, c, d);
      assert (q * c + r / d) * d == (q * c) * d + (r / d) * d;
    }
    DivModUnique(a, d, q * c + r / d, r % d);
  }

  lemma MultipleOfFactor(x: int, p: int, c: int, d: int)
    requires c > 0 && d > 0 && p > 0 && p == c * d && x % p == 0
    ensures x % d == 0
  {
    ModMod(x, c, d);
    assert (x % p) % d == x % d;
    MulMod(0, d);
  }

  /** A multiple of `d` that is a multiple of `q * d` comes from a multiple of `q`. */
  lemma CancelFactor(i: nat, q: nat, d: nat)
    requires q > 0 && d > 0 && q * d > 0 && (i * d) % (q * d) == 0
    ensures i % q == 0
  {
    var p := i * d / (q * d);
    assert i * d == (p * q) * d by { MulAssoc(p, q, d); }
    if i < p * q { MulGap(i, p * q, d); }
    if p * q < i { MulGap(p * q, i, d); }
    MulMod(p, q);
  }

  /** Between two multiples of `q` there is room for one more step of `q`. */
  lemma MultiplesGap(i: nat, n: nat, q: nat)
    requires q > 0 && i % q == 0 && n % q == 0 && i < n
    ensures i + q <= n
  {
    if i / q >= n / q { MulMonotone(n / q, i / q, q); }
    MulGap(i / q, n / q, q);
  }

  lemma MultipleRest(a: int, b: int, d: int)
    requires d > 0 && a % d == 0 && (a + b) % d == 0
    ensures b % d == 0
  {
    MulDistrib(a / d, b / d, d);
    DivModUnique(a + b, d, a / d + b / d, b % d);
  }

  lemma SumOfMultiples(x: int, y: int, d: int)
    requires d > 0 && x % d == 0 && y % d == 0
    ensures (x + y) % d == 0
  {
    MulDistrib(x / d, y / d, d);
    DivModUnique(x + y, d, x / d + y / d, 0);
  }
}
