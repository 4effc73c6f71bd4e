/** `rand_sse`: four linear congruential generators stepped side by side in one SSE2
    register, and what their periods mean for the placement of objects. */
module Lcg {
  import opened Arithmetic
  import opened Counting
  import Layout

  // ------------------------------------------------------------ the instructions used

  /** An `__m128i` as four 32-bit elements, element 0 lowest. */
  datatype M128 = M128(e0: nat, e1: nat, e2: nat, e3: nat)
  {
    ghost predicate Valid() { e0 < WORD && e1 < WORD && e2 < WORD && e3 < WORD }
  }

  function BitAnd(x: nat, y: nat): nat {
    if x == 0 || y == 0 then 0
    else (if x % 2 == 1 && y % 2 == 1 then 1 else 0) + 2 * BitAnd(x / 2, y / 2)
  }

  function BitOr(x: nat, y: nat): nat {
    if x == 0 then y else if y == 0 then x
    else (if x % 2 == 1 || y % 2 == 1 then 1 else 0) + 2 * BitOr(x / 2, y / 2)
  }

  /** `_mm_shuffle_epi32(a, _MM_SHUFFLE(2, 3, 0, 1))`: exchange the elements of each pair. */
  function SwapPairs(a: M128): M128 { M128(a.e1, a.e0, a.e3, a.e2) }

  /** `_mm_mul_epu32`: 64-bit products of elements 0 and 2. */
  function MulEpu32(a: M128, b: M128): M128 {
    var p, q := a.e0 * b.e0, a.e2 * b.e2;
    M128(p % WORD, p / WORD, q % WORD, q / WORD)
  }

  function AndSi128(a: M128, b: M128): M128 {
    M128(BitAnd(a.e0, b.e0), BitAnd(a.e1, b.e1), BitAnd(a.e2, b.e2), BitAnd(a.e3, b.e3))
  }

  function OrSi128(a: M128, b: M128): M128 {
    M128(BitOr(a.e0, b.e0), BitOr(a.e1, b.e1), BitOr(a.e2, b.e2), BitOr(a.e3, b.e3))
  }

  function AddEpi32(a: M128, b: M128): M128 {
    M128((a.e0 + b.e0) % WORD, (a.e1 + b.e1) % WORD, (a.e2 + b.e2) % WORD, (a.e3 + b.e3) % WORD)
  }

  /** Arithmetic shift right by 16 of one element, sign bit copied in. */
  function Sra16(x: nat): nat {
    if x < 0x8000_0000 then x / 0x1_0000 else x / 0x1_0000 + 0xFFFF_0000
  }

  function SraiEpi32By16(a: M128): M128 { M128(Sra16(a.e0), Sra16(a.e1), Sra16(a.e2), Sra16(a.e3)) }

  // ------------------------------------------------------------ the generator

  const MULT: M128 := M128(214013, 17405, 214013, 69069)
  const GADD: M128 := M128(2531011, 10395331, 13737667, 1)

  /** One congruential step. */
  function Step(mult: nat, add: nat, x: nat): nat { (mult * x + add) % WORD }

  /** Bits 16 to 30 of a state. */
  function Draw(x: nat): nat { x / 0x1_0000 % 0x8000 }

  /** The state after one call, lane by lane. */
  function NextState(x: M128): M128 {
    M128(Step(MULT.e0, GADD.e0, x.e0), Step(MULT.e1, GADD.e1, x.e1),
         Step(MULT.e2, GADD.e2, x.e2), Step(MULT.e3, GADD.e3, x.e3))
  }

  lemma ModPlus(p: int, add: int)
    ensures (p % WORD + add) % WORD == (p + add) % WORD
  {
    var q, r := p / WORD, p % WORD;
    DivModUnique(p + add, WORD, q + (r + add) / WORD, (r + add) % WORD);
  }

  lemma StepLane(mult: nat, add: nat, x: nat)
    ensures (x * mult % WORD + add) % WORD == Step(mult, add, x)
  {
    MulCommutes(x, mult);
    ModPlus(mult * x, add);
  }

  /** The `n` lowest bits of a word, one by one. */
  function LowBits(x: nat, n: nat): nat {
    if n == 0 then 0 else x % 2 + 2 * LowBits(x / 2, n - 1)
  }

  lemma HalfMod(x: nat, p: nat)
    requires p > 0
    ensures x % (2 * p) == x % 2 + 2 * (x / 2 % p)
  {
    var h := x / 2;
    assert x == h * 2 + x % 2 && h == (h / p) * p + h % p;
    DivModUnique(x, 2 * p, h / p, 2 * (h % p) + x % 2);
  }

  lemma {:induction false} LowBitsMod(x: nat, n: nat)
    ensures LowBits(x, n) == x % Pow2(n)
  {
    if n > 0 {
      LowBitsMod(x / 2, n - 1);
      HalfMod(x, Pow2(n - 1));
    }
  }

  lemma NoBits(n: nat)
    ensures LowBits(0, n) == 0
  {
  }

  /** Masking with low ones keeps the low bits. */
  lemma {:induction false} AndLowOnes(x: nat, n: nat, mask: nat)
    requires mask == Pow2(n) - 1
    ensures BitAnd(x, mask) == LowBits(x, n)
  {
    if n > 0 && x > 0 {
      assert mask % 2 == 1 && mask / 2 == Pow2(n - 1) - 1;
      AndLowOnes(x / 2, n - 1, mask / 2);
    } else if n > 0 {
      NoBits(n);
    }
  }

  lemma AndMask(x: nat, n: nat, mask: nat)
    requires mask == Pow2(n) - 1
    ensures BitAnd(x, mask) == x % Pow2(n)
  {
    AndLowOnes(x, n, mask);
    LowBitsMod(x, n);
  }

  lemma WordSizes()
    ensures Pow2(15) == 0x8000 && Pow2(16) == 0x1_0000 && Pow2(32) == WORD
  {
    assert Pow2(8) == 256;
    Pow2Add(8, 8);
    Pow2Add(16, 16);
  }

  lemma AndWord(x: nat)
    ensures BitAnd(x, 0xFFFF_FFFF) == x % WORD && BitAnd(x, 0) == 0 && BitAnd(x, 0x7FFF) == x % 0x8000
  {
    WordSizes();
    AndMask(x, 15, 0x7FFF);
    AndMask(x, 32, 0xFFFF_FFFF);
  }

  lemma KeepLowWords(a: M128, mask: M128)
    requires a.e0 < WORD && a.e2 < WORD && mask == M128(0xFFFF_FFFF, 0, 0xFFFF_FFFF, 0)
    ensures AndSi128(a, mask) == M128(a.e0, 0, a.e2, 0)
  {
    hide BitAnd;
    AndWord(a.e0);
    AndWord(a.e1);
    AndWord(a.e2);
    AndWord(a.e3);
  }

  lemma MergeLanes(a: M128, b: M128)
    requires a.e1 == a.e3 == b.e0 == b.e2 == 0
    ensures OrSi128(a, b) == M128(a.e0, b.e1, a.e2, b.e3)
  {
  }

  /** The shuffles and masks keep the four products apart. */
  lemma FourSteps(x: M128, swapped: M128, mask: M128)
    requires x.Valid() && swapped == SwapPairs(MULT) && mask == M128(0xFFFF_FFFF, 0, 0xFFFF_FFFF, 0)
    ensures var even := AndSi128(MulEpu32(x, MULT), mask);
      var odd := SwapPairs(AndSi128(MulEpu32(SwapPairs(x), swapped), mask));
      AddEpi32(OrSi128(even, odd), GADD) == NextState(x) && NextState(x).Valid()
  {
    var a, b := MulEpu32(x, MULT), MulEpu32(SwapPairs(x), swapped);
    KeepLowWords(a, mask);
    KeepLowWords(b, mask);
    MergeLanes(M128(a.e0, 0, a.e2, 0), SwapPairs(M128(b.e0, 0, b.e2, 0)));
    StepLane(MULT.e0, GADD.e0, x.e0);
    StepLane(MULT.e1, GADD.e1, x.e1);
    StepLane(MULT.e2, GADD.e2, x.e2);
    StepLane(MULT.e3, GADD.e3, x.e3);
  }

  lemma SignBits(x: nat)
    requires x < WORD
    ensures Sra16(x) % 0x8000 == Draw(x)
  {
  }

  /** The sign bit shifted in is masked out again. */
  lemma HighBits(a: M128, mask: M128)
    requires a.Valid() && mask == M128(0x7FFF, 0x7FFF, 0x7FFF, 0x7FFF)
    ensures AndSi128(SraiEpi32By16(a), mask) == M128(Draw(a.e0), Draw(a.e1), Draw(a.e2), Draw(a.e3))
  {
    AndWord(Sra16(a.e0));
    AndWord(Sra16(a.e1));
    AndWord(Sra16(a.e2));
    AndWord(Sra16(a.e3));
    SignBits(a.e0);
    SignBits(a.e1);
    SignBits(a.e2);
    SignBits(a.e3);
  }

  class Sse2Rng {
    var curSeed: M128

    /** `srand_sse`. */
    constructor Srand(seed: nat)
      requires seed < WORD
      ensures curSeed.Valid() && curSeed.e1 == curSeed.e3 == seed
      ensures curSeed.e0 == curSeed.e2 == if seed + 1 == WORD then 0 else seed + 1
    {
      curSeed := M128((seed + 1) % WORD, seed, (seed + 1) % WORD, seed);
    }

    /** `rand_sse`: each element makes its own step, and the results are its high bits. */
    method Rand() returns (result: M128)
      requires curSeed.Valid()
      modifies this
      ensures curSeed.Valid()
      ensures curSeed == NextState(old(curSeed))
      ensures result == M128(Draw(curSeed.e0), Draw(curSeed.e1), Draw(curSeed.e2), Draw(curSeed.e3))
      ensures curSeed.e0 == (214013 * old(curSeed).e0 + 2531011) % 0x1_0000_0000
      ensures curSeed.e1 == (17405 * old(curSeed).e1 + 10395331) % 0x1_0000_0000
      ensures curSeed.e2 == (214013 * old(curSeed).e2 + 13737667) % 0x1_0000_0000
      ensures curSeed.e3 == (69069 * old(curSeed).e3 + 1) % 0x1_0000_0000
      ensures result.e0 == curSeed.e0 / 0x1_0000 % 0x8000 && result.e1 == curSeed.e1 / 0x1_0000 % 0x8000
      ensures result.e2 == curSeed.e2 / 0x1_0000 % 0x8000 && result.e3 == curSeed.e3 / 0x1_0000 % 0x8000
    {
      ghost var x := curSeed;
      var adder, multiplier := GADD, MULT;
      var modMask := M128(0xFFFF_FFFF, 0, 0xFFFF_FFFF, 0);
      var sraMask := M128(0x7FFF, 0x7FFF, 0x7FFF, 0x7FFF);
      var curSeedSplit := SwapPairs(curSeed);
      curSeed := MulEpu32(curSeed, multiplier);
      multiplier := SwapPairs(multiplier);
      curSeedSplit := MulEpu32(curSeedSplit, multiplier);
      FourSteps(x, multiplier, modMask);
      curSeed := AndSi128(curSeed, modMask);
      curSeedSplit := AndSi128(curSeedSplit, modMask);
      curSeedSplit := SwapPairs(curSeedSplit);
      curSeed := OrSi128(curSeed, curSeedSplit);
      curSeed := AddEpi32(curSeed, adder);
      HighBits(curSeed, sraMask);
      var sseresult := SraiEpi32By16(curSeed);
      sseresult := AndSi128(sseresult, sraMask);
      result := sseresult;
    }
  }

  // ------------------------------------------------------------ the period

  /** `n` steps of `x := mult * x + add` on unbounded integers. */
  function Iterate(mult: nat, add: nat, n: nat, x: nat): nat {
    if n == 0 then x else mult * Iterate(mult, add, n - 1, x) + add
  }

  lemma {:induction false} IterateAdd(mult: nat, add: nat, i: nat, j: nat, x: nat)
    ensures Iterate(mult, add, i + j, x) == Iterate(mult, add, i, Iterate(mult, add, j, x))
  {
    if i > 0 {
      IterateAdd(mult, add, i - 1, j, x);
      assert i + j - 1 == i - 1 + j;
    }
  }

  /** `2^k` steps together are one step with these coefficients. */
  function Leap(mult: nat, add: nat, k: nat): (nat, nat) {
    if k == 0 then (mult, add)
    else
      var (m, a) := Leap(mult, add, k - 1);
      (m * m, m * a + a)
  }

  lemma MulSplit(a: int, b: int, c: int)
    ensures a * (b + c) == a * b + a * c
  {
  }

  lemma {:induction false} LeapIterates(mult: nat, add: nat, k: nat, x: nat)
    ensures Iterate(mult, add, Pow2(k), x) == Leap(mult, add, k).0 * x + Leap(mult, add, k).1
  {
    if k == 0 {
      assert Iterate(mult, add, 1, x) == mult * Iterate(mult, add, 0, x) + add;
    } else {
      var (m, a) := Leap(mult, add, k - 1);
      LeapIterates(mult, add, k - 1, x);
      LeapIterates(mult, add, k - 1, m * x + a);
      IterateAdd(mult, add, Pow2(k - 1), Pow2(k - 1), x);
      MulSplit(m, m * x, a);
      MulAssoc(m, m, x);
    }
  }

  ghost predicate FullPeriod(mult: nat, add: nat) {
    mult % 4 == 1 && add % 2 == 1
  }

  lemma SquareForm(m: int, u': int, r: int, u: int)
    requires m == 1 + (4 * r) * u' && u == u' + 2 * r * (u' * u')
    ensures m * m == 1 + (8 * r) * u
  {
    var w := r * u';
    assert (4 * r) * u' == 4 * w;
    assert m * m == 1 + 8 * w + 16 * (w * w);
    assert r * u == w + 2 * (w * w) by {
      assert r * u == r * u' + r * (2 * r * (u' * u'));
      assert r * (2 * r * (u' * u')) == 2 * (r * (r * (u' * u')));
      assert r * (r * (u' * u')) == w * w;
    }
    assert (8 * r) * u == 8 * (r * u);
  }

  lemma AddForm(m: int, a: int, u': int, v': int, r: int, v: int)
    requires m == 1 + (4 * r) * u' && a == r * (2 * v' + 1) && v == v' + (2 * v' + 1) * (r * u')
    ensures m * a + a == (2 * r) * (2 * v + 1)
  {
    var w, o := r * u', 2 * v' + 1;
    assert (4 * r) * u' == 4 * w;
    assert 2 * v + 1 == o + 2 * (o * w);
    assert (4 * w) * a == (4 * w) * (r * o);
    assert (4 * w) * (r * o) == 4 * (r * (o * w));
    assert m * a == a + (4 * w) * a by { MulDistrib(1, 4 * w, a); }
    assert (2 * r) * (2 * v + 1) == 2 * (r * o) + 4 * (r * (o * w)) by {
      MulDistrib(o, 2 * (o * w), 2 * r);
    }
  }

  /** A leap multiplies by 1 modulo `2^(k+2)` and adds an odd multiple of `2^k`. */
  lemma {:induction false} LeapForm(mult: nat, add: nat, k: nat) returns (u: nat, v: nat)
    requires FullPeriod(mult, add)
    ensures Leap(mult, add, k).0 == 1 + Pow2(k + 2) * u
    ensures Leap(mult, add, k).1 == Pow2(k) * (2 * v + 1)
  {
    if k == 0 {
      u, v := mult / 4, add / 2;
      assert Pow2(2) == 4;
    } else {
      var p, r := Pow2(k + 1), Pow2(k - 1);
      var u', v' := LeapForm(mult, add, k - 1);
      var (m, a) := Leap(mult, add, k - 1);
      assert p == 4 * r;
      u := u' + 2 * r * (u' * u');
      SquareForm(m, u', r, u);
      v := v' + (2 * v' + 1) * (r * u');
      AddForm(m, a, u', v', r, v);
    }
  }

  lemma MoveForm(p: int, u: int, v: int, x: int, z: int)
    requires z == 2 * (u * x) + v
    ensures (1 + (4 * p) * u) * x + p * (2 * v + 1) == x + p + z * (2 * p)
  {
    var w, pw, pv := u * x, p * (u * x), p * v;
    assert ((4 * p) * u) * x == 4 * pw by { MulAssoc(4 * p, u, x); }
    MulDistrib(1, (4 * p) * u, x);
    assert p * (2 * v + 1) == 2 * pv + p;
    assert z * (2 * p) == 4 * pw + 2 * pv by {
      MulDistrib(2 * w, v, 2 * p);
      assert (2 * w) * (2 * p) == 4 * pw;
      assert v * (2 * p) == 2 * pv;
    }
  }

  /** A leap moves a state by `2^k` modulo `2^(k+1)`. */
  lemma LeapMoves(mult: nat, add: nat, k: nat, x: nat) returns (z: nat)
    requires FullPeriod(mult, add)
    ensures Iterate(mult, add, Pow2(k), x) == x + Pow2(k) + z * Pow2(k + 1)
  {
    LeapIterates(mult, add, k, x);
    var u, v := LeapForm(mult, add, k);
    z := 2 * (u * x) + v;
    MoveForm(Pow2(k), u, v, x, z);
  }

  lemma {:induction false} LeapsMove(mult: nat, add: nat, k: nat, e: nat, x: nat) returns (z: nat)
    requires FullPeriod(mult, add)
    ensures Iterate(mult, add, e * Pow2(k), x) == x + e * Pow2(k) + z * Pow2(k + 1)
  {
    if e == 0 {
      z := 0;
    } else {
      var p := Pow2(k);
      var z1 := LeapsMove(mult, add, k, e - 1, x);
      var y := Iterate(mult, add, (e - 1) * p, x);
      var z2 := LeapMoves(mult, add, k, y);
      IterateAdd(mult, add, p, (e - 1) * p, x);
      assert e * p == p + (e - 1) * p by { MulDistrib(1, e - 1, p); }
      z := z1 + z2;
      MulDistrib(z1, z2, 2 * p);
    }
  }

  lemma {:induction false} SameResidue(a: int, b: int, d: int)
    requires d > 0 && a % d == b % d
    ensures a - b == (a / d - b / d) * d
  {
    MulDistrib(a / d, -(b / d), d);
  }

  lemma CancelMove(d: int, e: int, p: int, moved: int, z: int, w: int)
    requires p > 0 && d == e * p && moved == e * p + z * (2 * p) && moved == w * (2 * p)
    ensures d % (2 * p) == 0
  {
    MulDistrib(w - z, z, 2 * p);
    assert d == (w - z) * (2 * p);
    DivModUnique(d, 2 * p, w - z, 0);
  }

  /** States `d` steps apart agree on their `k` low bits only when `2^k` divides `d`. */
  lemma {:induction false} Returns(mult: nat, add: nat, k: nat, d: nat, x: nat)
    requires FullPeriod(mult, add)
    requires Iterate(mult, add, d, x) % Pow2(k) == x % Pow2(k)
    ensures d % Pow2(k) == 0
  {
    if k > 0 {
      var p := Pow2(k - 1);
      var y := Iterate(mult, add, d, x);
      ModMod(y, 2, p);
      ModMod(x, 2, p);
      Returns(mult, add, k - 1, d, x);
      var e := d / p;
      assert d == e * p;
      var z := LeapsMove(mult, add, k - 1, e, x);
      SameResidue(y, x, 2 * p);
      CancelMove(d, e, p, y - x, z, y / (2 * p) - x / (2 * p));
    }
  }

  lemma TwicePow2(k: nat)
    ensures Pow2(k + 1) == 2 * Pow2(k)
  {
  }

  lemma WholeTurns(x: int, e: int, z: int, p: int)
    requires p > 0
    ensures (x + e * p + z * (2 * p)) % p == x % p
  {
    MulAssoc(z, 2, p);
    MulDistrib(x / p, e, p);
    MulDistrib(x / p + e, z * 2, p);
    DivModUnique(x + e * p + z * (2 * p), p, x / p + e + z * 2, x % p);
  }

  /** Full period: the `k` low bits return exactly after multiples of `2^k` steps. */
  lemma FullPeriodExactly(mult: nat, add: nat, k: nat, d: nat, x: nat)
    requires FullPeriod(mult, add)
    ensures Iterate(mult, add, d, x) % Pow2(k) == x % Pow2(k) <==> d % Pow2(k) == 0
  {
    hide Iterate, FullPeriod, Pow2;
    var p, e := Pow2(k), d / Pow2(k);
    if d % p == 0 {
      var z := LeapsMove(mult, add, k, e, x);
      TwicePow2(k);
      WholeTurns(x, e, z, p);
      assert d == e * p;
    } else if Iterate(mult, add, d, x) % Pow2(k) == x % Pow2(k) {
      Returns(mult, add, k, d, x);
    }
  }

  // ------------------------------------------------------------ odds over a window of draws

  /** The state after `n` calls. */
  function StateAfter(mult: nat, add: nat, n: nat, x: nat): nat {
    if n == 0 then x else Step(mult, add, StateAfter(mult, add, n - 1, x))
  }

  lemma LastStep(mult: nat, add: nat, n: nat, x: nat)
    ensures n == 0 ==> StateAfter(mult, add, n, x) == x == Iterate(mult, add, n, x)
    ensures n > 0 ==> StateAfter(mult, add, n, x) == Step(mult, add, StateAfter(mult, add, n - 1, x))
    ensures n > 0 ==> Iterate(mult, add, n, x) == mult * Iterate(mult, add, n - 1, x) + add
  {
  }

  lemma ReduceFirst(mult: int, add: int, y: int)
    ensures (mult * (y % WORD) + add) % WORD == (mult * y + add) % WORD
  {
    var q, r := y / WORD, y % WORD;
    assert mult * y == mult * r + (mult * q) * WORD by {
      MulAssoc(mult, q, WORD);
      MulSplit(mult, q * WORD, r);
    }
    var z := mult * r + add;
    DivModUnique(mult * y + add, WORD, z / WORD + mult * q, z % WORD);
  }

  lemma {:induction false} StateIsIterate(mult: nat, add: nat, n: nat, x: nat)
    requires x < WORD
    ensures StateAfter(mult, add, n, x) == Iterate(mult, add, n, x) % WORD
  {
    hide StateAfter, Iterate;
    LastStep(mult, add, n, x);
    if n > 0 {
      StateIsIterate(mult, add, n - 1, x);
      ReduceFirst(mult, add, Iterate(mult, add, n - 1, x));
    }
  }

  /** The `k` low bits of the states in a window. */
  ghost function LowState(mult: nat, add: nat, k: nat, x: nat, n: nat): nat {
    StateAfter(mult, add, n, x) % Pow2(k)
  }

  lemma LowStateIs(mult: nat, add: nat, k: nat, x: nat, n: nat)
    requires x < WORD && k <= 32
    ensures LowState(mult, add, k, x, n) == Iterate(mult, add, n, x) % Pow2(k)
  {
    StateIsIterate(mult, add, n, x);
    WordSizes();
    Pow2Add(32 - k, k);
    ModMod(Iterate(mult, add, n, x), Pow2(32 - k), Pow2(k));
  }

  lemma WindowInjective(mult: nat, add: nat, k: nat, x: nat, i: nat, j: nat)
    requires FullPeriod(mult, add) && x < WORD && k <= 32 && i <= j < Pow2(k)
    requires LowState(mult, add, k, x, i) == LowState(mult, add, k, x, j)
    ensures i == j
  {
    LowStateIs(mult, add, k, x, i);
    LowStateIs(mult, add, k, x, j);
    IterateAdd(mult, add, j - i, i, x);
    Returns(mult, add, k, j - i, Iterate(mult, add, i, x));
    if i < j { DivModUnique(j - i, Pow2(k), 0, j - i); }
  }

  /** In any `2^k` consecutive states the `k` low bits take every value exactly once, so
      they fall in `[lo, hi)` exactly `hi - lo` times. */
  lemma LowBitsEvenlySpread(mult: nat, add: nat, k: nat, x: nat, lo: nat, hi: nat)
    requires FullPeriod(mult, add) && x < WORD && k <= 32 && lo <= hi <= Pow2(k)
    ensures |set n | n in Below(Pow2(k)) && lo <= LowState(mult, add, k, x, n) < hi| == hi - lo
  {
    var f: nat -> nat := (n: nat) => LowState(mult, add, k, x, n);
    var window := Below(Pow2(k));
    forall i, j | i in window && j in window && f(i) == f(j) ensures i == j {
      if i <= j { WindowInjective(mult, add, k, x, i, j); } else { WindowInjective(mult, add, k, x, j, i); }
    }
    PreimageSize(f, Pow2(k), Interval(lo, hi));
    assert Preimage(f, window, Interval(lo, hi)) == set n | n in window && lo <= LowState(mult, add, k, x, n) < hi;
  }

  lemma LanesHaveFullPeriod()
    ensures FullPeriod(MULT.e0, GADD.e0) && FullPeriod(MULT.e1, GADD.e1)
    ensures FullPeriod(MULT.e2, GADD.e2) && FullPeriod(MULT.e3, GADD.e3)
  {
  }

  /** The `n`-th number `getRandomNumber` returns from state `x`: element 0 of `rand_sse`. */
  function RandomNumber(x: nat, n: nat): nat {
    Draw(StateAfter(MULT.e0, GADD.e0, n, x))
  }

  lemma DrawSizes()
    ensures Pow2(16) == 0x1_0000 && Pow2(18) == 0x4_0000 && Pow2(21) == 0x20_0000
  {
    WordSizes();
    assert Pow2(17) == 2 * Pow2(16);
    assert Pow2(18) == 2 * Pow2(17);
    assert Pow2(19) == 2 * Pow2(18);
    assert Pow2(20) == 2 * Pow2(19);
    assert Pow2(21) == 2 * Pow2(20);
  }

  lemma BumpBits(y: nat)
    ensures Draw(y) % 32 == 0 <==> y % 0x20_0000 < 0x1_0000
  {
    var h, l := y / 0x1_0000, y % 0x1_0000;
    var e, m := h / 32, h % 32;
    ModMod(h, 0x400, 32);
    DivModUnique(y, 0x20_0000, e, m * 0x1_0000 + l);
  }

  /** Any 2^21 consecutive draws force the bump pointer 2^16 times: odds of 1 in 32. */
  lemma BumpOdds(x: nat)
    requires x < WORD
    ensures Pow2(21) == 32 * Pow2(16)
    ensures |set n | n in Below(Pow2(21)) && RandomNumber(x, n) % Layout.RANDOMIZER == 0| == Pow2(16)
  {
    hide StateAfter, Below;
    LanesHaveFullPeriod();
    var k: nat := 21;
    DrawSizes();
    LowBitsEvenlySpread(MULT.e0, GADD.e0, k, x, 0, Pow2(16));
    assert (set n | n in Below(Pow2(21)) && RandomNumber(x, n) % Layout.RANDOMIZER == 0)
      == set n | n in Below(Pow2(k)) && 0 <= LowState(MULT.e0, GADD.e0, k, x, n) < Pow2(16)
    by {
      forall n: nat
        ensures RandomNumber(x, n) % Layout.RANDOMIZER == 0 <==> LowState(MULT.e0, GADD.e0, k, x, n) < Pow2(16)
      {
        BumpBits(StateAfter(MULT.e0, GADD.e0, n, x));
      }
    }
  }

  lemma SetItemBits(y: nat, i: nat)
    requires i < 4
    ensures Draw(y) % 4 == i <==> i * 0x1_0000 <= y % 0x4_0000 < (i + 1) * 0x1_0000
  {
    var h, l := y / 0x1_0000, y % 0x1_0000;
    var e, m := h / 4, h % 4;
    ModMod(h, 0x2000, 4);
    DivModUnique(y, 0x4_0000, e, m * 0x1_0000 + l);
  }

  /** Any 2^18 consecutive draws pick each of the four set items 2^16 times. */
  lemma SetItemOdds(x: nat, i: nat)
    requires x < WORD && i < Layout.SET_SIZE
    ensures Pow2(18) == 4 * Pow2(16)
    ensures |set n | n in Below(Pow2(18)) && RandomNumber(x, n) % Layout.SET_SIZE == i| == Pow2(16)
  {
    hide StateAfter, Below;
    LanesHaveFullPeriod();
    var k: nat := 18;
    DrawSizes();
    LowBitsEvenlySpread(MULT.e0, GADD.e0, k, x, i * Pow2(16), (i + 1) * Pow2(16));
    assert (set n | n in Below(Pow2(18)) && RandomNumber(x, n) % Layout.SET_SIZE == i)
      == set n | n in Below(Pow2(k)) && i * Pow2(16) <= LowState(MULT.e0, GADD.e0, k, x, n) < (i + 1) * Pow2(16)
    by {
      forall n: nat ensures RandomNumber(x, n) % Layout.SET_SIZE == i
        <==> i * Pow2(16) <= LowState(MULT.e0, GADD.e0, k, x, n) < (i + 1) * Pow2(16)
      {
        SetItemBits(StateAfter(MULT.e0, GADD.e0, n, x), i);
      }
    }
  }

  lemma GuardBits(y: nat)
    ensures Draw(y) < 3277 <==> y % 0x8000_0000 < 3277 * 0x1_0000
  {
    var h, l := y / 0x1_0000, y % 0x1_0000;
    DivModUnique(y, 0x8000_0000, h / 0x8000, h % 0x8000 * 0x1_0000 + l);
  }

  /** In any 2^31 consecutive draws 3277 * 2^16 are below the cutoff for a random guard: odds of
      3277 in 32768, as `RANDOM_GUARD_PROP` is a tenth. */
  lemma GuardOdds(x: nat)
    requires x < WORD
    ensures Pow2(31) == 32768 * Pow2(16)
    ensures |set n | n in Below(Pow2(31)) && RandomNumber(x, n) as real < 0.1 * 32768.0| == 3277 * Pow2(16)
  {
    hide StateAfter, Below;
    LanesHaveFullPeriod();
    var k: nat := 31;
    DrawSizes();
    WordSizes();
    Pow2Add(16, 15);
    LowBitsEvenlySpread(MULT.e0, GADD.e0, k, x, 0, 3277 * Pow2(16));
    assert (set n | n in Below(Pow2(31)) && RandomNumber(x, n) as real < 0.1 * 32768.0)
      == set n | n in Below(Pow2(k)) && 0 <= LowState(MULT.e0, GADD.e0, k, x, n) < 3277 * Pow2(16)
    by {
      forall n: nat ensures RandomNumber(x, n) as real < 0.1 * 32768.0
        <==> LowState(MULT.e0, GADD.e0, k, x, n) < 3277 * Pow2(16)
      {
        GuardBits(StateAfter(MULT.e0, GADD.e0, n, x));
      }
    }
  }
}
