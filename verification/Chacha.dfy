/** The ChaCha keystream of `chacha_private.h`, in its `KEYSTREAM_ONLY` form. Words and
    bytes are numbers; an `|` of fields that do not overlap is their sum. */
module Chacha {
  import opened Arithmetic

  type Word = x: nat | x < 0x1_0000_0000
  type Byte = x: nat | x < 0x100

  function Plus(v: Word, w: Word): Word { (v + w) % WORD }

  function Minus(v: Word, w: Word): Word { (v - w) % WORD }

  function BitXor(x: nat, y: nat): nat {
    if x == 0 then y else if y == 0 then x
    else (if x % 2 == y % 2 then 0 else 1) + 2 * BitXor(x / 2, y / 2)
  }

  lemma {:induction false} XorBound(x: nat, y: nat, n: nat)
    requires x < Pow2(n) && y < Pow2(n)
    ensures BitXor(x, y) < Pow2(n)
  {
    if x != 0 && y != 0 {
      XorBound(x / 2, y / 2, n - 1);
    }
  }

  lemma WordSize()
    ensures Pow2(32) == WORD
  {
    assert Pow2(8) == 256;
    Pow2Add(8, 8);
    Pow2Add(16, 16);
  }

  function Xor(v: Word, w: Word): Word {
    WordSize();
    XorBound(v, w, 32);
    BitXor(v, w)
  }

  /** Binary digits of an exclusive or. */
  lemma XorDigits(x: nat, y: nat)
    ensures BitXor(x, y) % 2 == if x % 2 == y % 2 then 0 else 1
    ensures BitXor(x, y) / 2 == BitXor(x / 2, y / 2)
    ensures BitXor(0, y) == y
  {
  }

  lemma {:induction false} XorSelf(x: nat)
    ensures BitXor(x, x) == 0
  {
    if x != 0 { XorSelf(x / 2); }
  }

  lemma {:induction false} BitXorBack(x: nat, y: nat)
    ensures BitXor(BitXor(x, y), y) == x
  {
    hide BitXor;
    var z := BitXor(x, y);
    XorDigits(x, y);
    XorDigits(z, y);
    if x == 0 {
      XorSelf(y);
    } else {
      BitXorBack(x / 2, y / 2);
    }
  }

  /** Rotation of numbers below `p * r`: the low part moves up by `p`, the high part down by `r`. */
  function Rotate(v: nat, p: nat, r: nat): nat
    requires p > 0 && r > 0
  {
    MulMonotone(1, p, r);
    v * p % (p * r) + v / r
  }

  lemma RotateParts(v: nat, p: nat, r: nat)
    requires p > 0 && r > 0 && v < p * r
    ensures v / r < p && Rotate(v, p, r) == v % r * p + v / r < p * r
  {
    var hi, lo := v / r, v % r;
    assert v == hi * r + lo;
    if hi >= p { MulMonotone(p, hi, r); }
    MulDistrib(hi * r, lo, p);
    MulAssoc(hi, r, p);
    MulCommutes(r, p);
    DigitsBound(lo, hi, r, p);
    MulMonotone(0, lo, p);
    DivModUnique(v * p, p * r, hi, lo * p);
  }

  /** Rotating by the rest of the word comes back. */
  lemma RotateBack(v: nat, p: nat, r: nat)
    requires p > 0 && r > 0 && v < p * r
    ensures Rotate(Rotate(v, p, r), r, p) == v
  {
    hide Rotate;
    var hi, lo := v / r, v % r;
    RotateParts(v, p, r);
    DivModUnique(Rotate(v, p, r), p, lo, hi);
    MulCommutes(r, p);
    RotateParts(Rotate(v, p, r), r, p);
  }

  lemma WordParts(n: nat)
    requires n <= 32
    ensures Pow2(n) * Pow2(32 - n) == WORD
  {
    WordSize();
    Pow2Add(n, 32 - n);
  }

  /** `ROTL32`. */
  function Rotl(v: Word, n: nat): Word
    requires n <= 32
  {
    WordParts(n);
    RotateParts(v, Pow2(n), Pow2(32 - n));
    Rotate(v, Pow2(n), Pow2(32 - n))
  }

  lemma RotlBack(v: Word, n: nat, m: nat)
    requires n + m == 32
    ensures Rotl(Rotl(v, n), m) == v
  {
    WordParts(n);
    RotateBack(v, Pow2(n), Pow2(m));
  }

  lemma XorBack(v: Word, w: Word)
    ensures Xor(Xor(v, w), w) == v
  {
    BitXorBack(v, w);
  }

  lemma PlusBack(v: Word, w: Word)
    ensures Minus(Plus(v, w), w) == v && Plus(Minus(v, w), w) == v
  {
  }

  // ------------------------------------------------------------ quarter rounds

  datatype Quad = Quad(a: Word, b: Word, c: Word, d: Word)

  /** The `QUARTERROUND` macro. */
  function QuarterRound(q: Quad): Quad {
    var a := Plus(q.a, q.b);
    var d := Rotl(Xor(q.d, a), 16);
    var c := Plus(q.c, d);
    var b := Rotl(Xor(q.b, c), 12);
    var a' := Plus(a, b);
    var d' := Rotl(Xor(d, a'), 8);
    var c' := Plus(c, d');
    var b' := Rotl(Xor(b, c'), 7);
    Quad(a', b', c', d')
  }

  /** The same lines undone, last first. */
  function UnQuarterRound(q: Quad): Quad {
    var b := Xor(Rotl(q.b, 25), q.c);
    var c := Minus(q.c, q.d);
    var d := Xor(Rotl(q.d, 24), q.a);
    var a := Minus(q.a, b);
    var b' := Xor(Rotl(b, 20), c);
    var c' := Minus(c, d);
    var d' := Xor(Rotl(d, 16), a);
    var a' := Minus(a, b');
    Quad(a', b', c', d')
  }

  /** The two lines of a half round on the words they touch. */
  lemma HalfUndone(a: Word, b: Word, d: Word, n: nat, m: nat)
    requires n + m == 32
    ensures var a' := Plus(a, b); var d' := Rotl(Xor(d, a'), n); Xor(Rotl(d', m), a') == d && Minus(a', b) == a
  {
    var a' := Plus(a, b);
    RotlBack(Xor(d, a'), n, m);
    XorBack(d, a');
    PlusBack(a, b);
  }

  lemma HalfRedone(a: Word, b: Word, d: Word, n: nat, m: nat)
    requires n + m == 32
    ensures var d' := Xor(Rotl(d, m), a); var a' := Minus(a, b); Plus(a', b) == a && Rotl(Xor(d', a), n) == d
  {
    RotlBack(d, m, n);
    XorBack(Rotl(d, m), a);
    PlusBack(a, b);
  }

  /** A quarter round is a permutation of four words. */
  lemma QuarterRoundUndone(q: Quad)
    ensures UnQuarterRound(QuarterRound(q)) == q
  {
    var a := Plus(q.a, q.b);
    var d := Rotl(Xor(q.d, a), 16);
    var c := Plus(q.c, d);
    var b := Rotl(Xor(q.b, c), 12);
    HalfUndone(q.a, q.b, q.d, 16, 16);
    HalfUndone(q.c, d, q.b, 12, 20);
    HalfUndone(a, b, d, 8, 24);
    HalfUndone(c, Rotl(Xor(d, Plus(a, b)), 8), b, 7, 25);
  }

  lemma QuarterRoundRedone(q: Quad)
    ensures QuarterRound(UnQuarterRound(q)) == q
  {
    var b := Xor(Rotl(q.b, 25), q.c);
    var c := Minus(q.c, q.d);
    var d := Xor(Rotl(q.d, 24), q.a);
    var a := Minus(q.a, b);
    var b' := Xor(Rotl(b, 20), c);
    HalfRedone(q.c, q.d, q.b, 7, 25);
    HalfRedone(q.a, b, q.d, 8, 24);
    HalfRedone(c, d, b, 12, 20);
    HalfRedone(a, b', d, 16, 16);
  }

  // ------------------------------------------------------------ a test vector

  function XorBit(i: nat, j: nat): nat { if i == j then 0 else 1 }

  lemma XorBinary(a: nat, i: nat, b: nat, j: nat)
    requires i < 2 && j < 2
    ensures BitXor(2 * a + i, 2 * b + j) == 2 * BitXor(a, b) + XorBit(i, j)
  {
    hide BitXor;
    XorDigits(2 * a + i, 2 * b + j);
  }

  /** An exclusive or, one hexadecimal digit at a time. */
  lemma XorDigit(a: nat, b: nat, x3: nat, x2: nat, x1: nat, x0: nat, y3: nat, y2: nat, y1: nat, y0: nat)
    requires x3 < 2 && x2 < 2 && x1 < 2 && x0 < 2 && y3 < 2 && y2 < 2 && y1 < 2 && y0 < 2
    ensures BitXor(16 * a + 8 * x3 + 4 * x2 + 2 * x1 + x0, 16 * b + 8 * y3 + 4 * y2 + 2 * y1 + y0)
      == 16 * BitXor(a, b) + 8 * XorBit(x3, y3) + 4 * XorBit(x2, y2) + 2 * XorBit(x1, y1) + XorBit(x0, y0)
  {
    hide BitXor, XorBit;
    XorBinary(a, x3, b, y3);
    XorBinary(2 * a + x3, x2, 2 * b + y3, y2);
    XorBinary(4 * a + 2 * x3 + x2, x1, 4 * b + 2 * y3 + y2, y1);
    XorBinary(8 * a + 4 * x3 + 2 * x2 + x1, x0, 8 * b + 4 * y3 + 2 * y2 + y1, y0);
  }

  lemma VectorXor1()
    ensures Xor(0x01234567, 0x12131415) == 0x13305172
  {
    hide BitXor, Pow2;
    XorDigits(0, 0);
    XorDigit(0x0, 0x0, 0, 0, 0, 0, 0, 0, 0, 1);
    XorDigit(0x0, 0x1, 0, 0, 0, 1, 0, 0, 1, 0);
    XorDigit(0x1, 0x12, 0, 0, 1, 0, 0, 0, 0, 1);
    XorDigit(0x12, 0x121, 0, 0, 1, 1, 0, 0, 1, 1);
    XorDigit(0x123, 0x1213, 0, 1, 0, 0, 0, 0, 0, 1);
    XorDigit(0x1234, 0x12131, 0, 1, 0, 1, 0, 1, 0, 0);
    XorDigit(0x12345, 0x121314, 0, 1, 1, 0, 0, 0, 0, 1);
    XorDigit(0x123456, 0x1213141, 0, 1, 1, 1, 0, 1, 0, 1);
  }

  lemma VectorXor2()
    ensures Xor(0x01020304, 0xecff8273) == 0xedfd8177
  {
    hide BitXor, Pow2;
    XorDigits(0, 0);
    XorDigit(0x0, 0x0, 0, 0, 0, 0, 1, 1, 1, 0);
    XorDigit(0x0, 0xe, 0, 0, 0, 1, 1, 1, 0, 0);
    XorDigit(0x1, 0xec, 0, 0, 0, 0, 1, 1, 1, 1);
    XorDigit(0x10, 0xecf, 0, 0, 1, 0, 1, 1, 1, 1);
    XorDigit(0x102, 0xecff, 0, 0, 0, 0, 1, 0, 0, 0);
    XorDigit(0x1020, 0xecff8, 0, 0, 1, 1, 0, 0, 1, 0);
    XorDigit(0x10203, 0xecff82, 0, 0, 0, 0, 0, 1, 1, 1);
    XorDigit(0x102030, 0xecff827, 0, 1, 0, 0, 0, 0, 1, 1);
  }

  lemma VectorXor3()
    ensures Xor(0x51721330, 0xea2a92f4) == 0xbb5881c4
  {
    hide BitXor, Pow2;
    XorDigits(0, 0);
    XorDigit(0x0, 0x0, 0, 1, 0, 1, 1, 1, 1, 0);
    XorDigit(0x5, 0xe, 0, 0, 0, 1, 1, 0, 1, 0);
    XorDigit(0x51, 0xea, 0, 1, 1, 1, 0, 0, 1, 0);
    XorDigit(0x517, 0xea2, 0, 0, 1, 0, 1, 0, 1, 0);
    XorDigit(0x5172, 0xea2a, 0, 0, 0, 1, 1, 0, 0, 1);
    XorDigit(0x51721, 0xea2a9, 0, 0, 1, 1, 0, 0, 1, 0);
    XorDigit(0x517213, 0xea2a92, 0, 0, 1, 1, 1, 1, 1, 1);
    XorDigit(0x5172133, 0xea2a92f, 0, 0, 0, 0, 0, 1, 0, 0);
  }

  lemma VectorXor4()
    ensures Xor(0xd8177edf, 0x4581472e) == 0x9d9639f1
  {
    hide BitXor, Pow2;
    XorDigits(0, 0);
    XorDigit(0x0, 0x0, 1, 1, 0, 1, 0, 1, 0, 0);
    XorDigit(0xd, 0x4, 1, 0, 0, 0, 0, 1, 0, 1);
    XorDigit(0xd8, 0x45, 0, 0, 0, 1, 1, 0, 0, 0);
    XorDigit(0xd81, 0x458, 0, 1, 1, 1, 0, 0, 0, 1);
    XorDigit(0xd817, 0x4581, 0, 1, 1, 1, 0, 1, 0, 0);
    XorDigit(0xd8177, 0x45814, 1, 1, 1, 0, 0, 1, 1, 1);
    XorDigit(0xd8177e, 0x458147, 1, 1, 0, 1, 0, 0, 1, 0);
    XorDigit(0xd8177ed, 0x4581472, 1, 1, 1, 1, 1, 1, 1, 0);
  }

  lemma RotlIs(v: Word, n: nat, p: nat, r: nat)
    requires n <= 32 && Pow2(n) == p && Pow2(32 - n) == r
    ensures Rotl(v, n) == v % r * p + v / r
  {
    WordParts(n);
    RotateParts(v, p, r);
  }

  lemma RotlBy(v: Word)
    ensures Rotl(v, 16) == v % 0x1_0000 * 0x1_0000 + v / 0x1_0000
    ensures Rotl(v, 12) == v % 0x10_0000 * 0x1000 + v / 0x10_0000
    ensures Rotl(v, 8) == v % 0x100_0000 * 0x100 + v / 0x100_0000
    ensures Rotl(v, 7) == v % 0x200_0000 * 0x80 + v / 0x200_0000
  {
    hide Rotl;
    assert Pow2(7) == 0x80 && Pow2(8) == 0x100;
    Pow2Add(8, 8);
    Pow2Add(8, 4);
    Pow2Add(16, 4);
    Pow2Add(16, 8);
    Pow2Add(16, 9);
    RotlIs(v, 16, 0x1_0000, 0x1_0000);
    RotlIs(v, 12, 0x1000, 0x10_0000);
    RotlIs(v, 8, 0x100, 0x100_0000);
    RotlIs(v, 7, 0x80, 0x200_0000);
  }

  lemma VectorRotl()
    ensures Rotl(0x13305172, 16) == 0x51721330 && Rotl(0xedfd8177, 12) == 0xd8177edf
    ensures Rotl(0xbb5881c4, 8) == 0x5881c4bb && Rotl(0x9d9639f1, 7) == 0xcb1cf8ce
  {
    hide Rotl;
    RotlBy(0x13305172);
    RotlBy(0xedfd8177);
    RotlBy(0xbb5881c4);
    RotlBy(0x9d9639f1);
  }

  /** The test vector of RFC 8439, section 2.1.1. */
  lemma QuarterRoundVector()
    ensures QuarterRound(Quad(0x11111111, 0x01020304, 0x9b8d6f43, 0x01234567))
      == Quad(0xea2a92f4, 0xcb1cf8ce, 0x4581472e, 0x5881c4bb)
  {
    hide Xor, Rotl;
    VectorXor1();
    VectorXor2();
    VectorXor3();
    VectorXor4();
    VectorRotl();
  }

  // ------------------------------------------------------------ rounds

  /** The sixteen words of `chacha_ctx`, or of `x0` … `x15`. */
  type State = s: seq<Word> | |s| == 16 witness seq(16, _ => 0)

  /** The words one quarter round works on. */
  datatype Four = Four(i: nat, j: nat, k: nat, l: nat)
  {
    predicate Valid() {
      && i < 16 && j < 16 && k < 16 && l < 16
      && i != j && i != k && i != l && j != k && j != l && k != l
    }
  }

  function QuadAt(s: State, f: Four): Quad
    requires f.Valid()
  {
    Quad(s[f.i], s[f.j], s[f.k], s[f.l])
  }

  function Store(s: State, f: Four, q: Quad): State
    requires f.Valid()
  {
    s[f.i := q.a][f.j := q.b][f.k := q.c][f.l := q.d]
  }

  function RoundAt(s: State, f: Four): State
    requires f.Valid()
  {
    Store(s, f, QuarterRound(QuadAt(s, f)))
  }

  function UnRoundAt(s: State, f: Four): State
    requires f.Valid()
  {
    Store(s, f, UnQuarterRound(QuadAt(s, f)))
  }

  predicate AllValid(fs: seq<Four>) { forall f <- fs :: f.Valid() }

  /** Quarter rounds one after the other. */
  function InOrder(s: State, fs: seq<Four>): State
    requires AllValid(fs)
    decreases |fs|, |s|
  {
    if fs == [] then s else InOrder(RoundAt(s, fs[0]), fs[1..])
  }

  function UnInOrder(s: State, fs: seq<Four>): State
    requires AllValid(fs)
    decreases |fs|, |s|
  {
    if fs == [] then s else UnRoundAt(UnInOrder(s, fs[1..]), fs[0])
  }

  /** `inner_block` of RFC 8439, section 2.3.1: four column rounds, four diagonal rounds. */
  function InnerBlock(): (fs: seq<Four>)
    ensures AllValid(fs)
  {
    [Four(0, 4, 8, 12), Four(1, 5, 9, 13), Four(2, 6, 10, 14), Four(3, 7, 11, 15),
     Four(0, 5, 10, 15), Four(1, 6, 11, 12), Four(2, 7, 8, 13), Four(3, 4, 9, 14)]
  }

  /** The columns of the state as a matrix of four rows, and then its diagonals. */
  lemma ColumnsAndDiagonals(i: nat)
    requires i < 4
    ensures |InnerBlock()| == 8
    ensures InnerBlock()[i] == Four(i, 4 + i, 8 + i, 12 + i)
    ensures InnerBlock()[4 + i] == Four(i, 4 + (i + 1) % 4, 8 + (i + 2) % 4, 12 + (i + 3) % 4)
  {
  }

  /** `f` applied `n` times. */
  function Repeat(f: State -> State, s: State, n: nat): State
    decreases n, |s|
  {
    if n == 0 then s else Repeat(f, f(s), n - 1)
  }

  function DoubleRound(s: State): State { InOrder(s, InnerBlock()) }

  function UnDoubleRound(s: State): State { UnInOrder(s, InnerBlock()) }

  /** The twenty rounds of the cipher, two at a time. */
  function TwentyRounds(s: State): State { Repeat(DoubleRound, s, 10) }

  function UnTwentyRounds(s: State): State { Repeat(UnDoubleRound, s, 10) }

  lemma StoreBack(s: State, f: Four, q: Quad)
    requires f.Valid()
    ensures QuadAt(Store(s, f, q), f) == q && Store(Store(s, f, q), f, QuadAt(s, f)) == s
  {
  }

  lemma RoundAtUndone(s: State, f: Four)
    requires f.Valid()
    ensures UnRoundAt(RoundAt(s, f), f) == s && RoundAt(UnRoundAt(s, f), f) == s
  {
    var q := QuadAt(s, f);
    StoreBack(s, f, QuarterRound(q));
    StoreBack(s, f, UnQuarterRound(q));
    QuarterRoundUndone(q);
    QuarterRoundRedone(q);
  }

  lemma {:induction false} InOrderPermutes(s: State, fs: seq<Four>)
    requires AllValid(fs)
    ensures UnInOrder(InOrder(s, fs), fs) == s && InOrder(UnInOrder(s, fs), fs) == s
    decreases |fs|
  {
    if fs != [] {
      InOrderPermutes(RoundAt(s, fs[0]), fs[1..]);
      RoundAtUndone(s, fs[0]);
      InOrderPermutes(s, fs[1..]);
      RoundAtUndone(UnInOrder(s, fs[1..]), fs[0]);
    }
  }

  lemma {:induction false} RepeatLast(f: State -> State, s: State, n: nat)
    ensures Repeat(f, s, n + 1) == f(Repeat(f, s, n))
    decreases n
  {
    if n > 0 { RepeatLast(f, f(s), n - 1); }
  }

  lemma {:induction false} RepeatUndone(f: State -> State, g: State -> State, s: State, n: nat)
    requires forall x :: g(f(x)) == x
    ensures Repeat(g, Repeat(f, s, n), n) == s
    decreases n
  {
    if n > 0 {
      RepeatUndone(f, g, f(s), n - 1);
      RepeatLast(g, Repeat(f, s, n), n - 1);
    }
  }

  /** The twenty rounds are a permutation of the states. */
  lemma TwentyRoundsPermute(s: State)
    ensures UnTwentyRounds(TwentyRounds(s)) == s && TwentyRounds(UnTwentyRounds(s)) == s
  {
    forall x: State ensures UnDoubleRound(DoubleRound(x)) == x && DoubleRound(UnDoubleRound(x)) == x {
      InOrderPermutes(x, InnerBlock());
    }
    RepeatUndone(DoubleRound, UnDoubleRound, s, 10);
    RepeatUndone(UnDoubleRound, DoubleRound, s, 10);
  }

  function FourRounds(s: State): State { DoubleRound(DoubleRound(s)) }

  lemma RepeatFirst(f: State -> State, s: State, n: nat)
    ensures n > 0 ==> Repeat(f, s, n) == Repeat(f, f(s), n - 1)
  {
  }

  lemma TwoMore(s: State, n: nat)
    ensures Repeat(DoubleRound, s, n + 2) == Repeat(DoubleRound, FourRounds(s), n)
  {
    hide DoubleRound;
    RepeatFirst(DoubleRound, s, n + 2);
    RepeatFirst(DoubleRound, DoubleRound(s), n + 1);
  }

  lemma RepeatNone(f: State -> State, s: State)
    ensures Repeat(f, s, 0) == s
  {
  }

  /** Twenty rounds are four rounds, five times over. */
  lemma FiveTimesFour(s: State)
    ensures TwentyRounds(s) == FourRounds(FourRounds(FourRounds(FourRounds(FourRounds(s)))))
  {
    hide FourRounds, Repeat;
    var f := (x: State) => FourRounds(x);
    TwoMore(s, 8);
    TwoMore(f(s), 6);
    TwoMore(f(f(s)), 4);
    TwoMore(f(f(f(s))), 2);
    TwoMore(f(f(f(f(s)))), 0);
    RepeatNone(DoubleRound, f(f(f(f(f(s))))));
  }

  // ------------------------------------------------------------ blocks and the counter

  /** `U32TO8_LITTLE`. */
  function ToBytes(w: Word): (b: seq<Byte>)
    ensures |b| == 4
  {
    [w % 0x100, w / 0x100 % 0x100, w / 0x1_0000 % 0x100, w / 0x100_0000 % 0x100]
  }

  /** `U8TO32_LITTLE`. */
  function FromBytes(b: seq<Byte>): Word
    requires |b| == 4
  {
    var b0: nat, b1: nat, b2: nat, b3: nat := b[0], b[1], b[2], b[3];
    b0 + 0x100 * b1 + 0x1_0000 * b2 + 0x100_0000 * b3
  }

  function Serialize(ws: seq<Word>): (bs: seq<Byte>)
    ensures |bs| == 4 * |ws|
  {
    if ws == [] then [] else ToBytes(ws[0]) + Serialize(ws[1..])
  }

  function Sum(x: State, j: State): State { seq(16, i requires 0 <= i < 16 => Plus(x[i], j[i])) }

  /** The keystream block of a state: RFC 8439, 2.3, with a 64-bit counter and nonce. */
  function Block(j: State): (bs: seq<Byte>)
    ensures |bs| == 64
  {
    Serialize(Sum(TwentyRounds(j), j))
  }

  /** The number stored in four bytes, least significant first. */
  function LittleEndian(b: seq<Byte>, at: nat): nat
    requires at + 4 <= |b|
  {
    var b0: nat, b1: nat, b2: nat, b3: nat := b[at], b[at + 1], b[at + 2], b[at + 3];
    b0 + 0x100 * b1 + 0x1_0000 * b2 + 0x100_0000 * b3
  }

  lemma BytesOfWord(w: Word)
    ensures LittleEndian(ToBytes(w), 0) == w
  {
    var q1: nat := w / 0x100;
    var q2 := q1 / 0x100;
    assert w / 0x1_0000 == q2 && w / 0x100_0000 == q2 / 0x100;
  }

  lemma BytesBetween(a: seq<Byte>, b: seq<Byte>, c: seq<Byte>, i: nat)
    requires i + 4 <= |b|
    ensures LittleEndian(a + b + c, |a| + i) == LittleEndian(b, i)
  {
    assert forall k :: 0 <= k < |b| ==> (a + b + c)[|a| + k] == b[k];
  }

  lemma {:induction false} SerializeAt(ws: seq<Word>, i: nat)
    requires i < |ws|
    ensures LittleEndian(Serialize(ws), 4 * i) == ws[i]
    decreases |ws|
  {
    hide ToBytes, LittleEndian;
    var head, tail := ToBytes(ws[0]), Serialize(ws[1..]);
    if i == 0 {
      BytesOfWord(ws[0]);
      BytesBetween([], head, tail, 0);
      assert [] + head + tail == Serialize(ws);
    } else {
      SerializeAt(ws[1..], i - 1);
      BytesBetween(head, tail, [], 4 * (i - 1));
      assert head + tail + [] == Serialize(ws);
    }
  }

  /** The words of a block: the state after the rounds, and the input added. */
  lemma BlockWords(j: State, i: nat)
    requires i < 16
    ensures LittleEndian(Block(j), 4 * i) == (TwentyRounds(j)[i] + j[i]) % WORD
  {
    hide TwentyRounds, Serialize;
    SerializeAt(Sum(TwentyRounds(j), j), i);
  }

  /** A block less its input, with the rounds undone, is the input. */
  lemma BlockUndone(j: State, x: State)
    requires forall i: nat :: i < 16 ==> x[i] == (LittleEndian(Block(j), 4 * i) - j[i]) % WORD
    ensures UnTwentyRounds(x) == j
  {
    hide Block, TwentyRounds, UnTwentyRounds, LittleEndian;
    TwentyRoundsPermute(j);
    forall i: nat | i < 16 ensures x[i] == TwentyRounds(j)[i] {
      BlockWords(j, i);
    }
    assert x == TwentyRounds(j);
  }

  /** The block counter in words 12 and 13. */
  function Counter(j: State): nat {
    var lo: nat, hi: nat := j[12], j[13];
    lo + WORD * hi
  }

  function WithCounter(j: State, k: nat): State { j[12 := k % WORD][13 := k / WORD % WORD] }

  /** `j12 = PLUSONE(j12); if (!j12) j13 = PLUSONE(j13)`. */
  function Increment(j: State): State {
    var j12 := Plus(j[12], 1);
    if j12 == 0 then j[12 := j12][13 := Plus(j[13], 1)] else j[12 := j12]
  }

  lemma IncrementCounts(j: State)
    ensures Increment(j) == WithCounter(j, Counter(j) + 1)
    ensures Counter(Increment(j)) == (Counter(j) + 1) % (WORD * WORD)
  {
    var a: nat, b: nat := j[12], j[13];
    if a + 1 == WORD {
      DivModUnique(Counter(j) + 1, WORD, b + 1, 0);
      if b + 1 == WORD { DivModUnique(Counter(j) + 1, WORD * WORD, 1, 0); }
    } else {
      DivModUnique(Counter(j) + 1, WORD, b, a + 1);
    }
  }

  /** `n` bytes of the blocks of the states from `j` on. */
  function StreamOf(block: State -> seq<Byte>, j: State, n: nat): (bs: seq<Byte>)
    requires forall s :: |block(s)| == 64
    ensures |bs| == n
    decreases n, |j|
  {
    if n <= 64 then block(j)[..n] else block(j) + StreamOf(block, Increment(j), n - 64)
  }

  /** `n` bytes of keystream from state `j` on. */
  function Stream(j: State, n: nat): (bs: seq<Byte>)
    ensures |bs| == n
  {
    StreamOf(Block, j, n)
  }

  /** The state stored back after `n` bytes. */
  function Advance(j: State, n: nat): State
    decreases n, |j|
  {
    if n == 0 then j else if n <= 64 then Increment(j) else Advance(Increment(j), n - 64)
  }

  // ------------------------------------------------------------ properties of the stream

  function Blocks(n: nat): nat { (n + 63) / 64 }

  lemma CounterOwn(j: State)
    ensures WithCounter(j, Counter(j)) == j
  {
    DivModUnique(Counter(j), WORD, j[13], j[12]);
  }

  lemma ShiftCounter(c: nat, turns: nat)
    ensures (c + WORD * (WORD * turns)) % WORD == c % WORD
    ensures (c + WORD * (WORD * turns)) / WORD % WORD == c / WORD % WORD
  {
    var q, r := c / WORD, c % WORD;
    DivModUnique(c + WORD * (WORD * turns), WORD, q + WORD * turns, r);
    DivModUnique(q + WORD * turns, WORD, q / WORD + turns, q % WORD);
  }

  /** Setting the counter, reading it back and adding works modulo 2^64. */
  lemma CounterAgain(j: State, k: nat, d: nat)
    ensures WithCounter(WithCounter(j, k), Counter(WithCounter(j, k)) + d) == WithCounter(j, k + d)
  {
    var hi, lo := k / WORD, k % WORD;
    var c := Counter(WithCounter(j, k));
    assert c == lo + WORD * (hi % WORD);
    var turns := hi / WORD;
    assert k == c + WORD * (WORD * turns);
    ShiftCounter(c + d, turns);
  }

  /** The counter moves on by the number of blocks, rounded up, as one 64-bit number; no
      other word of the state changes. */
  lemma {:induction false} AdvanceCounts(j: State, n: nat)
    ensures Advance(j, n) == WithCounter(j, Counter(j) + Blocks(n))
    decreases n
  {
    if n == 0 {
      CounterOwn(j);
    } else if n <= 64 {
      IncrementCounts(j);
    } else {
      IncrementCounts(j);
      AdvanceCounts(Increment(j), n - 64);
      CounterAgain(j, Counter(j) + 1, Blocks(n) - 1);
    }
  }

  lemma {:induction false} StreamOfAt(block: State -> seq<Byte>, j: State, n: nat, i: nat)
    requires i < n && forall s :: |block(s)| == 64
    ensures StreamOf(block, j, n)[i] == block(WithCounter(j, Counter(j) + i / 64))[i % 64]
    decreases n
  {
    if i < 64 {
      CounterOwn(j);
    } else {
      StreamOfAt(block, Increment(j), n - 64, i - 64);
      IncrementCounts(j);
      CounterAgain(j, Counter(j) + 1, (i - 64) / 64);
      assert (i - 64) / 64 + 1 == i / 64 && (i - 64) % 64 == i % 64;
    }
  }

  /** Byte `i` of the stream is byte `i % 64` of the block whose counter is `i / 64` on. */
  lemma StreamAt(j: State, n: nat, i: nat)
    requires i < n
    ensures Stream(j, n)[i] == Block(WithCounter(j, Counter(j) + i / 64))[i % 64]
  {
    StreamOfAt(Block, j, n, i);
  }

  lemma {:induction false} SplitOfAtBlock(block: State -> seq<Byte>, j: State, n: nat, k: nat)
    requires n % 64 == 0 && forall s :: |block(s)| == 64
    ensures StreamOf(block, j, n + k) == StreamOf(block, j, n) + StreamOf(block, Advance(j, n), k)
    ensures Advance(j, n + k) == Advance(Advance(j, n), k)
    decreases n
  {
    if n > 64 {
      SplitOfAtBlock(block, Increment(j), n - 64, k);
      assert n - 64 + k == n + k - 64;
    } else if n == 64 && k == 0 {
      assert StreamOf(block, Increment(j), 0) == [];
    } else if n == 0 {
      assert StreamOf(block, j, 0) == [];
    }
  }

  /** Splitting a request at a block boundary changes neither the bytes nor the state. */
  lemma SplitAtBlock(j: State, n: nat, k: nat)
    requires n % 64 == 0
    ensures Stream(j, n + k) == Stream(j, n) + Stream(Advance(j, n), k)
    ensures Advance(j, n + k) == Advance(Advance(j, n), k)
  {
    SplitOfAtBlock(Block, j, n, k);
  }

  // ------------------------------------------------------------ the context object

  /** "expand 32-byte k", as four little-endian words. */
  const SIGMA: seq<Word> := [0x61707865, 0x3320646e, 0x79622d32, 0x6b206574]

  /** Consecutive little-endian words of a byte string. */
  function Words(b: seq<Byte>): (ws: seq<Word>)
    requires |b| % 4 == 0
    ensures |ws| == |b| / 4
    decreases |b|
  {
    if b == [] then [] else [FromBytes(b[..4])] + Words(b[4..])
  }

  lemma {:induction false} WordsAt(b: seq<Byte>, i: nat)
    requires |b| % 4 == 0 && 4 * i < |b|
    ensures Words(b)[i] == LittleEndian(b, 4 * i)
    decreases |b|
  {
    if i > 0 { WordsAt(b[4..], i - 1); }
  }

  lemma SigmaBytes()
    ensures ToBytes(0x61707865) == [0x65, 0x78, 0x70, 0x61] && ToBytes(0x3320646e) == [0x6e, 0x64, 0x20, 0x33]
    ensures ToBytes(0x79622d32) == [0x32, 0x2d, 0x62, 0x79] && ToBytes(0x6b206574) == [0x74, 0x65, 0x20, 0x6b]
  {
  }

  /** The constant words spell out what they are for. */
  lemma SigmaSpells(i: nat)
    requires i < 16
    ensures Serialize(SIGMA)[i] == "expand 32-byte k"[i] as int
  {
    hide ToBytes;
    var text := "expand 32-byte k";
    assert Serialize(SIGMA[3..]) == ToBytes(SIGMA[3]) + Serialize(SIGMA[3..][1..]) && SIGMA[3..][1..] == [];
    assert Serialize(SIGMA[2..]) == ToBytes(SIGMA[2]) + Serialize(SIGMA[2..][1..]) && SIGMA[2..][1..] == SIGMA[3..];
    assert Serialize(SIGMA[1..]) == ToBytes(SIGMA[1]) + Serialize(SIGMA[1..][1..]) && SIGMA[1..][1..] == SIGMA[2..];
    SigmaBytes();
  }

  /** The state after `chacha_keysetup` with a 256-bit key and `chacha_ivsetup`. */
  function Setup(key: seq<Byte>, iv: seq<Byte>): State
    requires |key| == 32 && |iv| == 8
  {
    SIGMA + Words(key) + [0, 0] + Words(iv)
  }

  ghost predicate Untouched(before: seq<Byte>, after: seq<Byte>, end: nat) {
    |before| == |after| && forall k :: end <= k < |after| ==> after[k] == before[k]
  }

  // ------------------------------------------------------------ the block, word by word

  method WriteBytes(out: array<Byte>, at: nat, bs: seq<Byte>)
    requires at + |bs| <= out.Length
    modifies out
    ensures out[..at + |bs|] == old(out[..at]) + bs && Untouched(old(out[..]), out[..], at + |bs|)
  {
    for i := 0 to |bs|
      invariant out[..] == old(out[..at]) + bs[..i] + old(out[at + i..])
    {
      out[at + i] := bs[i];
    }
  }

  /** The `QUARTERROUND` macro, line by line on four variables. */
  method QuarterRoundMacro(a0: Word, b0: Word, c0: Word, d0: Word) returns (a: Word, b: Word, c: Word, d: Word)
    ensures Quad(a, b, c, d) == QuarterRound(Quad(a0, b0, c0, d0))
  {
    a, b, c, d := a0, b0, c0, d0;
    a := Plus(a, b);
    d := Rotl(Xor(d, a), 16);
    c := Plus(c, d);
    b := Rotl(Xor(b, c), 12);
    a := Plus(a, b);
    d := Rotl(Xor(d, a), 8);
    c := Plus(c, d);
    b := Rotl(Xor(b, c), 7);
  }

  lemma OneQuarter(s: State, fs: seq<Four>, n: nat)
    requires AllValid(fs) && n < |fs|
    ensures AllValid(fs[n..]) && AllValid(fs[n + 1..])
    ensures InOrder(s, fs[n..]) == InOrder(RoundAt(s, fs[n]), fs[n + 1..])
    ensures n + 1 == |fs| ==> InOrder(s, fs[n..]) == RoundAt(s, fs[n])
  {
    assert fs[n..][0] == fs[n] && fs[n..][1..] == fs[n + 1..];
  }

  /** Eight quarter rounds in a row are the double round. */
  lemma EightQuarters(s: State)
    ensures var c := RoundAt(RoundAt(s, Four(0, 4, 8, 12)), Four(1, 5, 9, 13));
      var d := RoundAt(RoundAt(c, Four(2, 6, 10, 14)), Four(3, 7, 11, 15));
      var e := RoundAt(RoundAt(d, Four(0, 5, 10, 15)), Four(1, 6, 11, 12));
      RoundAt(RoundAt(e, Four(2, 7, 8, 13)), Four(3, 4, 9, 14)) == DoubleRound(s)
  {
    hide RoundAt, InOrder;
    var fs := InnerBlock();
    var t := s;
    assert fs[0..] == fs && fs[8..] == [];
    OneQuarter(t, fs, 0);
    t := RoundAt(t, fs[0]);
    OneQuarter(t, fs, 1);
    t := RoundAt(t, fs[1]);
    OneQuarter(t, fs, 2);
    t := RoundAt(t, fs[2]);
    OneQuarter(t, fs, 3);
    t := RoundAt(t, fs[3]);
    OneQuarter(t, fs, 4);
    t := RoundAt(t, fs[4]);
    OneQuarter(t, fs, 5);
    t := RoundAt(t, fs[5]);
    OneQuarter(t, fs, 6);
    t := RoundAt(t, fs[6]);
    OneQuarter(t, fs, 7);
  }

  /** A quarter round changes its four words only. */
  lemma RoundAtWords(s: State, f: Four)
    requires f.Valid()
    ensures QuadAt(RoundAt(s, f), f) == QuarterRound(QuadAt(s, f))
    ensures forall n :: 0 <= n < 16 && n != f.i && n != f.j && n != f.k && n != f.l ==> RoundAt(s, f)[n] == s[n]
  {
    hide QuarterRound;
  }

  /** The inner loop of the block function: sixteen variables go through ten double rounds. */
  method RoundLoop(j: State) returns (x: State)
    ensures x == TwentyRounds(j)
  {
    hide QuarterRound, Repeat, DoubleRound, RoundAt;
    var x0, x1, x2, x3, x4, x5, x6, x7 := j[0], j[1], j[2], j[3], j[4], j[5], j[6], j[7];
    var x8, x9, x10, x11, x12, x13, x14, x15 := j[8], j[9], j[10], j[11], j[12], j[13], j[14], j[15];
    x := j;
    var i := 20;
    while i > 0
      invariant 0 <= i <= 20 && i % 2 == 0
      invariant x == [x0, x1, x2, x3, x4, x5, x6, x7, x8, x9, x10, x11, x12, x13, x14, x15]
      invariant Repeat(DoubleRound, x, i / 2) == Repeat(DoubleRound, j, 10)
    {
      RepeatFirst(DoubleRound, x, i / 2);
      EightQuarters(x);
      x0, x4, x8, x12 := QuarterRoundMacro(x0, x4, x8, x12);
      ghost var s1 := RoundAt(x, Four(0, 4, 8, 12));
      RoundAtWords(x, Four(0, 4, 8, 12));
      x1, x5, x9, x13 := QuarterRoundMacro(x1, x5, x9, x13);
      ghost var s2 := RoundAt(s1, Four(1, 5, 9, 13));
      RoundAtWords(s1, Four(1, 5, 9, 13));
      x2, x6, x10, x14 := QuarterRoundMacro(x2, x6, x10, x14);
      ghost var s3 := RoundAt(s2, Four(2, 6, 10, 14));
      RoundAtWords(s2, Four(2, 6, 10, 14));
      x3, x7, x11, x15 := QuarterRoundMacro(x3, x7, x11, x15);
      ghost var s4 := RoundAt(s3, Four(3, 7, 11, 15));
      RoundAtWords(s3, Four(3, 7, 11, 15));
      assert s4 == [x0, x1, x2, x3, x4, x5, x6, x7, x8, x9, x10, x11, x12, x13, x14, x15];
      x0, x5, x10, x15 := QuarterRoundMacro(x0, x5, x10, x15);
      ghost var s5 := RoundAt(s4, Four(0, 5, 10, 15));
      RoundAtWords(s4, Four(0, 5, 10, 15));
      x1, x6, x11, x12 := QuarterRoundMacro(x1, x6, x11, x12);
      ghost var s6 := RoundAt(s5, Four(1, 6, 11, 12));
      RoundAtWords(s5, Four(1, 6, 11, 12));
      x2, x7, x8, x13 := QuarterRoundMacro(x2, x7, x8, x13);
      ghost var s7 := RoundAt(s6, Four(2, 7, 8, 13));
      RoundAtWords(s6, Four(2, 7, 8, 13));
      x3, x4, x9, x14 := QuarterRoundMacro(x3, x4, x9, x14);
      ghost var s8 := RoundAt(s7, Four(3, 4, 9, 14));
      RoundAtWords(s7, Four(3, 4, 9, 14));
      x := [x0, x1, x2, x3, x4, x5, x6, x7, x8, x9, x10, x11, x12, x13, x14, x15];
      assert x == s8;
      i := i - 2;
    }
    RepeatNone(DoubleRound, x);
  }

  /** The sixteen additions of the input. */
  method AddInput(x: State, j: State) returns (sum: State)
    ensures sum == Sum(x, j)
  {
    hide Plus;
    var x0, x1, x2, x3 := Plus(x[0], j[0]), Plus(x[1], j[1]), Plus(x[2], j[2]), Plus(x[3], j[3]);
    var x4, x5, x6, x7 := Plus(x[4], j[4]), Plus(x[5], j[5]), Plus(x[6], j[6]), Plus(x[7], j[7]);
    var x8, x9, x10, x11 := Plus(x[8], j[8]), Plus(x[9], j[9]), Plus(x[10], j[10]), Plus(x[11], j[11]);
    var x12, x13, x14, x15 := Plus(x[12], j[12]), Plus(x[13], j[13]), Plus(x[14], j[14]), Plus(x[15], j[15]);
    sum := [x0, x1, x2, x3, x4, x5, x6, x7, x8, x9, x10, x11, x12, x13, x14, x15];
    assert sum == Sum(x, j);
  }

  /** The first `n` words have been stored from `at` on, and nothing else. */
  ghost predicate WordsStored(now: seq<Byte>, before: seq<Byte>, at: nat, ws: State, n: nat) {
    n <= 16 && at + 64 <= |before| && now == before[..at] + Serialize(ws[..n]) + before[at + 4 * n..]
  }

  lemma NoneStored(before: seq<Byte>, at: nat, ws: State)
    requires at + 64 <= |before|
    ensures WordsStored(before, before, at, ws, 0)
  {
    assert before == before[..at] + Serialize(ws[..0]) + before[at..];
  }

  lemma AllStored(now: seq<Byte>, before: seq<Byte>, at: nat, ws: State)
    requires WordsStored(now, before, at, ws, 16)
    ensures at + 64 <= |before| && now == before[..at] + Serialize(ws) + before[at + 64..]
  {
    assert ws[..16] == ws;
  }

  lemma {:induction false} SerializeLast(ws: seq<Word>, w: Word)
    ensures Serialize(ws + [w]) == Serialize(ws) + ToBytes(w)
    decreases |ws|
  {
    hide ToBytes;
    if ws == [] {
      assert ws + [w] == [w] && [w][1..] == [];
    } else {
      assert (ws + [w])[1..] == ws[1..] + [w];
      SerializeLast(ws[1..], w);
    }
  }

  /** `U32TO8_LITTLE(c + off, w)`, behind the words stored before. */
  method StoreWord(buf: array<Byte>, at: nat, off: nat, w: Word, ghost n: nat, ghost before: seq<Byte>, ghost ws: State)
    requires WordsStored(buf[..], before, at, ws, n) && off == 4 * n && n < 16 && w == ws[n]
    modifies buf
    ensures WordsStored(buf[..], before, at, ws, n + 1)
  {
    SerializeLast(ws[..n], w);
    assert ws[..n] + [w] == ws[..n + 1];
    buf[at + off] := w % 0x100;
    buf[at + off + 1] := w / 0x100 % 0x100;
    buf[at + off + 2] := w / 0x1_0000 % 0x100;
    buf[at + off + 3] := w / 0x100_0000 % 0x100;
  }

  /** Four such lines. */
  method StoreFour(buf: array<Byte>, at: nat, off: nat, w0: Word, w1: Word, w2: Word, w3: Word,
                   ghost n: nat, ghost before: seq<Byte>, ghost ws: State)
    requires WordsStored(buf[..], before, at, ws, n) && off == 4 * n && n + 4 <= 16
    requires [w0, w1, w2, w3] == ws[n..n + 4]
    modifies buf
    ensures WordsStored(buf[..], before, at, ws, n + 4)
  {
    hide WordsStored;
    assert w0 == ws[n..n + 4][0] && w1 == ws[n..n + 4][1] && w2 == ws[n..n + 4][2] && w3 == ws[n..n + 4][3];
    StoreWord(buf, at, off, w0, n, before, ws);
    StoreWord(buf, at, off + 4, w1, n + 1, before, ws);
    StoreWord(buf, at, off + 8, w2, n + 2, before, ws);
    StoreWord(buf, at, off + 12, w3, n + 3, before, ws);
  }

  /** The rest of the block function: the input is added, and the words are stored byte by
      byte. What is stored is the keystream block. */
  method StoreBlock(buf: array<Byte>, at: nat, j: State)
    requires at + 64 <= buf.Length
    modifies buf
    ensures buf[..] == old(buf[..at]) + Block(j) + old(buf[at + 64..])
    ensures forall i: nat :: i < 16 ==> LittleEndian(buf[..], at + 4 * i) == (TwentyRounds(j)[i] + j[i]) % WORD
  {
    hide TwentyRounds, Serialize, WordsStored;
    var x := RoundLoop(j);
    var sum := AddInput(x, j);
    ghost var before := buf[..];
    NoneStored(before, at, sum);
    StoreFour(buf, at, 0, sum[0], sum[1], sum[2], sum[3], 0, before, sum);
    StoreFour(buf, at, 16, sum[4], sum[5], sum[6], sum[7], 4, before, sum);
    StoreFour(buf, at, 32, sum[8], sum[9], sum[10], sum[11], 8, before, sum);
    StoreFour(buf, at, 48, sum[12], sum[13], sum[14], sum[15], 12, before, sum);
    AllStored(buf[..], before, at, sum);
    forall i: nat | i < 16 ensures LittleEndian(buf[..], at + 4 * i) == (TwentyRounds(j)[i] + j[i]) % WORD {
      BlockWords(j, i);
      BytesBetween(before[..at], Block(j), before[at + 64..], 4 * i);
    }
  }

  /** One pass of the main loop: the next block, or by way of `tmp` as much of it as is
      asked for. */
  method EmitBlock(out: array<Byte>, c: nat, size: nat, j: State) returns (next: State)
    requires size <= 64 && c + size <= out.Length
    modifies out
    ensures out[..c + size] == old(out[..c]) + Block(j)[..size] && next == Increment(j)
    ensures Untouched(old(out[..]), out[..], c + size)
  {
    hide Block;
    if size < 64 {
      var tmp := new Byte[64];
      StoreBlock(tmp, 0, j);
      assert tmp[..] == Block(j);
      WriteBytes(out, c, tmp[..size]);
    } else {
      StoreBlock(out, c, j);
    }
    next := Increment(j);
  }

  lemma StreamStep(head: seq<Byte>, j: State, n: nat)
    requires n > 0
    ensures n <= 64 ==> Stream(j, n) == Block(j)[..n] && Advance(j, n) == Increment(j)
    ensures n > 64 ==> head + Block(j)[..64] + Stream(Increment(j), n - 64) == head + Stream(j, n)
    ensures n > 64 ==> Advance(j, n) == Advance(Increment(j), n - 64)
  {
    if n > 64 {
      var a, b := Block(j)[..64], Stream(Increment(j), n - 64);
      assert a == Block(j);
      assert (head + a) + b == head + (a + b);
    }
  }

  /** The main loop: block after block until the request is met. */
  method Generate(j0: State, out: array<Byte>, off: nat, n: nat) returns (j: State)
    requires 0 < n && off + n <= out.Length
    modifies out
    ensures out[..off + n] == old(out[..off]) + Stream(j0, n) && Untouched(old(out[..]), out[..], off + n)
    ensures j == Advance(j0, n)
  {
    hide Block, Increment;
    var c, bytes := off, n;
    j := j0;
    while bytes > 64
      invariant 0 < bytes && c + bytes == off + n
      invariant out[..c] + Stream(j, bytes) == old(out[..off]) + Stream(j0, n)
      invariant Advance(j, bytes) == Advance(j0, n)
      invariant Untouched(old(out[..]), out[..], off + n)
    {
      StreamStep(out[..c], j, bytes);
      j := EmitBlock(out, c, 64, j);
      bytes, c := bytes - 64, c + 64;
    }
    StreamStep(out[..c], j, bytes);
    j := EmitBlock(out, c, bytes, j);
  }

  /** Only words 12 and 13 move, so storing those two stores the whole state. */
  lemma OnlyCounterMoves(j: State, n: nat)
    ensures j[12 := Advance(j, n)[12]][13 := Advance(j, n)[13]] == Advance(j, n)
  {
    AdvanceCounts(j, n);
  }

  class ChachaCtx {
    var input: State

    constructor ()
    {
      input := seq(16, _ => 0);
    }

    /** `chacha_keysetup(x, k, 256, 0)`. */
    method KeySetup(k: seq<Byte>)
      requires |k| == 32
      modifies this
      ensures input == SIGMA + Words(k) + old(input)[12..]
      ensures forall i: nat :: i < 8 ==> input[4 + i] == LittleEndian(k, 4 * i)
    {
      forall i: nat | i < 8 ensures Words(k)[i] == LittleEndian(k, 4 * i) { WordsAt(k, i); }
      var w := Words(k);
      input := input[4 := w[0]][5 := w[1]][6 := w[2]][7 := w[3]];
      input := input[8 := w[4]][9 := w[5]][10 := w[6]][11 := w[7]];
      input := input[0 := SIGMA[0]][1 := SIGMA[1]][2 := SIGMA[2]][3 := SIGMA[3]];
    }

    /** `chacha_ivsetup`: a zero counter and the nonce. */
    method IvSetup(iv: seq<Byte>)
      requires |iv| == 8
      modifies this
      ensures input == old(input)[..12] + [0, 0] + Words(iv)
      ensures input[14] == LittleEndian(iv, 0) && input[15] == LittleEndian(iv, 4)
    {
      WordsAt(iv, 0);
      WordsAt(iv, 1);
      var w := Words(iv);
      input := input[12 := 0][13 := 0][14 := w[0]][15 := w[1]];
    }

    /** `chacha_encrypt_bytes` into `out[off..off + n]`, for keystream only. */
    method EncryptBytes(out: array<Byte>, off: nat, n: nat)
      requires off + n <= out.Length
      modifies this, out
      ensures out[..off + n] == old(out[..off]) + Stream(old(input), n) && Untouched(old(out[..]), out[..], off + n)
      ensures input == Advance(old(input), n)
    {
      if n == 0 {
        return;
      }
      var j := Generate(input, out, off, n);
      OnlyCounterMoves(input, n);
      input := input[12 := j[12]][13 := j[13]];
    }
  }
}
