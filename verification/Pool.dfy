/** The keystream pool of `arc4random.c`: keystream is drawn ahead into a buffer, bytes are
    wiped as they are given out, and every refill replaces the key. */
module Pool {
  import opened Chacha

  const KEYSZ: nat := 32
  const IVSZ: nat := 8
  const RSBUFSZ: nat := 1024
  const RESEED: nat := 1600000

  /** `_rs` and `_rsx`; `seeded` says that they are allocated. */
  datatype Pool = Pool(seeded: bool, ctx: State, buf: seq<Byte>, have: nat, count: nat)

  predicate Shape(p: Pool) { |p.buf| == RSBUFSZ && p.have <= RSBUFSZ - KEYSZ - IVSZ }

  /** Everything before the unread suffix has been wiped. */
  predicate Clean(p: Pool) {
    Shape(p) && forall i :: 0 <= i < RSBUFSZ - p.have ==> p.buf[i] == 0
  }

  function XorByte(x: Byte, y: Byte): Byte {
    XorBound(x, y, 8);
    BitXor(x, y)
  }

  /** The first `k` bytes of `dat` mixed into the keystream. */
  function Mix(ks: seq<Byte>, dat: seq<Byte>, k: nat): (r: seq<Byte>)
    requires k <= |ks| && k <= |dat|
    ensures |r| == |ks|
  {
    seq(|ks|, i requires 0 <= i < |ks| => if i < k then XorByte(ks[i], dat[i]) else ks[i])
  }

  function Zeros(n: nat): seq<Byte> { seq(n, _ => 0) }

  /** `_rs_rekey`: the first 40 bytes of new keystream become the next key and nonce, and
      are wiped; the rest is there to be given out. */
  function Rekey(p: Pool, dat: seq<Byte>): (p': Pool)
    ensures Clean(p') && p'.have == RSBUFSZ - KEYSZ - IVSZ && p'.seeded == p.seeded && p'.count == p.count
  {
    var k := if |dat| < KEYSZ + IVSZ then |dat| else KEYSZ + IVSZ;
    var bytes := Mix(Stream(p.ctx, RSBUFSZ), dat, k);
    p.(ctx := Setup(bytes[..KEYSZ], bytes[KEYSZ..KEYSZ + IVSZ]),
       buf := Zeros(KEYSZ + IVSZ) + bytes[KEYSZ + IVSZ..],
       have := RSBUFSZ - KEYSZ - IVSZ)
  }

  type Entropy = s: seq<Byte> | |s| == 40 witness seq(40, _ => 0)

  /** `_rs_stir` with the given entropy. */
  function Stir(p: Pool, rnd: Entropy): Pool {
    var ctx := if p.seeded then Rekey(p, rnd).ctx else Setup(rnd[..KEYSZ], rnd[KEYSZ..]);
    Pool(true, ctx, Zeros(RSBUFSZ), 0, RESEED)
  }

  /** What the environment contributes to a call: has the process forked, and fresh entropy. */
  datatype Env = Env(forked: bool, rnd: Entropy)

  /** `_rs_forkdetect`. */
  function ForkDetect(p: Pool, forked: bool): Pool {
    if forked && p.seeded then p.(have := 0, count := 0) else p
  }

  predicate NeedsStir(p: Pool, len: nat) { !p.seeded || p.count <= len }

  /** `_rs_stir_if_needed`. */
  function StirIfNeeded(p: Pool, len: nat, e: Env): Pool {
    var p1 := ForkDetect(p, e.forked);
    var p2 := if NeedsStir(p1, len) then Stir(p1, e.rnd) else p1;
    p2.(count := if p2.count <= len then 0 else p2.count - len)
  }

  /** Wipe and use up the first `m` unread bytes. */
  function Consume(p: Pool, m: nat): (p': Pool)
    requires Shape(p) && m <= p.have
    ensures Shape(p')
  {
    var at := RSBUFSZ - p.have;
    p.(buf := p.buf[..at] + Zeros(m) + p.buf[at + m..], have := p.have - m)
  }

  /** A pool with another reseed counter. */
  function Charged(p: Pool, k: nat): Pool { p.(count := k) }

  ghost predicate Fills(refill: Pool -> Pool) {
    forall p: Pool :: |refill(p).buf| == RSBUFSZ && refill(p).have == RSBUFSZ - KEYSZ - IVSZ
  }

  /** What taking bytes relies on: a refilled pool is clean and full, the rest is untouched. */
  ghost predicate Refills(refill: Pool -> Pool) {
    && Fills(refill) && (forall p: Pool :: Clean(refill(p)))
    && (forall p: Pool :: refill(p).seeded == p.seeded && refill(p).count == p.count)
    && (forall p: Pool, k: nat :: refill(Charged(p, k)) == Charged(refill(p), k))
  }

  function SettleBy(refill: Pool -> Pool, p: Pool): Pool { if p.have == 0 then refill(p) else p }

  /** The next byte. A pool is refilled as soon as its last byte is gone. */
  function TakeByte(refill: Pool -> Pool, p: Pool): (r: (Byte, Pool))
    requires Fills(refill) && Shape(p)
    ensures Shape(r.1) && r.1.have > 0
  {
    var q := SettleBy(refill, p);
    (q.buf[RSBUFSZ - q.have], SettleBy(refill, Consume(q, 1)))
  }

  /** The next `n` bytes, one after the other. */
  function TakeBytesBy(refill: Pool -> Pool, p: Pool, n: nat): (r: (seq<Byte>, Pool))
    requires Fills(refill) && Shape(p)
    ensures |r.0| == n && Shape(r.1)
    decreases n, |p.buf|
  {
    if n == 0 then ([], p)
    else
      var b := TakeByte(refill, p);
      var bs := TakeBytesBy(refill, b.1, n - 1);
      ([b.0] + bs.0, bs.1)
  }

  /** `_rs_rekey(NULL, 0)`. */
  function Refill(p: Pool): Pool { Rekey(p, []) }

  lemma RefillRefills()
    ensures Refills(Refill)
  {
  }

  function Settle(p: Pool): Pool { SettleBy(Refill, p) }

  function TakeBytes(p: Pool, n: nat): (r: (seq<Byte>, Pool))
    requires Shape(p)
    ensures |r.0| == n && Shape(r.1)
  {
    RefillRefills();
    TakeBytesBy(Refill, p, n)
  }

  /** `arc4random_buf`. */
  function RandomBuf(p: Pool, n: nat, e: Env): (r: (seq<Byte>, Pool))
    requires Shape(p)
    ensures |r.0| == n && Shape(r.1)
  {
    TakeBytes(StirIfNeeded(p, n, e), n)
  }

  /** The unread bytes. */
  function Unread(p: Pool): (s: seq<Byte>)
    requires Shape(p)
    ensures |s| == p.have
  {
    p.buf[RSBUFSZ - p.have..]
  }

  function DrawWord(p: Pool): (r: (Word, Pool))
    requires Shape(p)
    ensures Shape(r.1)
  {
    var q := if p.have < 4 then Refill(p) else p;
    (FromBytes(Unread(q)[..4]), Consume(q, 4))
  }

  /** `_rs_random_u32`: four bytes at once; fewer than four left over are given up. */
  function RandomU32(p: Pool, e: Env): (r: (Word, Pool))
    requires Shape(p)
    ensures Shape(r.1)
  {
    DrawWord(StirIfNeeded(p, 4, e))
  }

  // ------------------------------------------------------------ keys and entropy

  lemma ByteOff(i: nat, p: nat, j: nat, q: nat)
    requires i < 0x100 && j < 0x100 && i + 0x100 * p == j + 0x100 * q
    ensures i == j && p == q
  {
  }

  lemma FourBytes(a: seq<Byte>, b: seq<Byte>)
    requires |a| == |b| == 4 && FromBytes(a) == FromBytes(b)
    ensures a == b
  {
    var a0: nat, a1: nat, a2: nat, a3: nat := a[0], a[1], a[2], a[3];
    var b0: nat, b1: nat, b2: nat, b3: nat := b[0], b[1], b[2], b[3];
    ByteOff(a0, a1 + 0x100 * (a2 + 0x100 * a3), b0, b1 + 0x100 * (b2 + 0x100 * b3));
    ByteOff(a1, a2 + 0x100 * a3, b1, b2 + 0x100 * b3);
    ByteOff(a2, a3, b2, b3);
  }

  lemma {:induction false} WordsInjective(a: seq<Byte>, b: seq<Byte>)
    requires |a| == |b| && |a| % 4 == 0 && Words(a) == Words(b)
    ensures a == b
    decreases |a|
  {
    if a != [] {
      assert Words(a)[0] == Words(b)[0] && Words(a)[1..] == Words(b)[1..];
      FourBytes(a[..4], b[..4]);
      WordsInjective(a[4..], b[4..]);
      assert a == a[..4] + a[4..] && b == b[..4] + b[4..];
    }
  }

  /** Different keys and nonces give different contexts. */
  lemma SetupInjective(key: seq<Byte>, iv: seq<Byte>, key': seq<Byte>, iv': seq<Byte>)
    requires |key| == |key'| == 32 && |iv| == |iv'| == 8 && Setup(key, iv) == Setup(key', iv')
    ensures key == key' && iv == iv'
  {
    var a, b := Setup(key, iv), Setup(key', iv');
    assert a[4..12] == Words(key) && b[4..12] == Words(key');
    assert a[14..] == Words(iv) && b[14..] == Words(iv');
    WordsInjective(key, key');
    WordsInjective(iv, iv');
  }

  lemma {:induction false} XorCommutes(x: nat, y: nat)
    ensures BitXor(x, y) == BitXor(y, x)
  {
    if x != 0 && y != 0 { XorCommutes(x / 2, y / 2); }
  }

  lemma {:induction false} XorCancels(x: nat, y: nat, z: nat)
    requires BitXor(x, y) == BitXor(x, z)
    ensures y == z
  {
    hide BitXor;
    XorCommutes(x, y);
    XorCommutes(x, z);
    BitXorBack(y, x);
    BitXorBack(z, x);
  }

  lemma XorByteCancels(x: Byte, y: Byte, z: Byte)
    requires XorByte(x, y) == XorByte(x, z)
    ensures y == z
  {
    XorCancels(x, y, z);
  }

  /** Every byte of fresh entropy reaches the key or the nonce: two stirs of one pool leave
      the same context exactly when they were given the same entropy. */
  lemma EntropyCounts(p: Pool, rnd: Entropy, other: Entropy)
    ensures Stir(p, rnd).ctx == Stir(p, other).ctx <==> rnd == other
  {
    hide Setup, Stream, XorByte;
    if Stir(p, rnd).ctx == Stir(p, other).ctx {
      if p.seeded {
        var ks := Stream(p.ctx, RSBUFSZ);
        var a, b := Mix(ks, rnd, 40), Mix(ks, other, 40);
        SetupInjective(a[..32], a[32..40], b[..32], b[32..40]);
        forall i | 0 <= i < 40 ensures rnd[i] == other[i] {
          assert a[..40] == a[..32] + a[32..40] == b[..32] + b[32..40] == b[..40];
          assert a[i] == a[..40][i] == b[..40][i] == b[i];
          XorByteCancels(ks[i], rnd[i], other[i]);
        }
      } else {
        SetupInjective(rnd[..32], rnd[32..], other[..32], other[32..]);
        assert rnd == rnd[..32] + rnd[32..] && other == other[..32] + other[32..];
      }
    }
  }

  // ------------------------------------------------------------ taking in pieces

  lemma ConsumeUnread(p: Pool, m: nat)
    requires Shape(p) && m <= p.have
    ensures Unread(Consume(p, m)) == Unread(p)[m..]
    ensures Clean(p) ==> Clean(Consume(p, m))
  {
  }

  lemma ConsumeTwice(p: Pool, m: nat, k: nat)
    requires Shape(p) && m + k <= p.have
    ensures Consume(Consume(p, m), k) == Consume(p, m + k)
  {
    assert Consume(Consume(p, m), k).buf == Consume(p, m + k).buf;
  }

  lemma TakeFirst(f: Pool -> Pool, p: Pool, n: nat)
    requires Fills(f) && Shape(p) && n > 0
    ensures var q := TakeByte(f, p); var b := TakeBytesBy(f, q.1, n - 1); TakeBytesBy(f, p, n) == ([q.0] + b.0, b.1)
  {
  }

  lemma TakeNothing(f: Pool -> Pool, p: Pool, n: nat)
    requires Fills(f) && Shape(p) && n == 0
    ensures TakeBytesBy(f, p, n) == ([], p)
  {
  }

  lemma JoinFirst(b: Byte, bs: seq<Byte>, cs: seq<Byte>)
    ensures [b] + (bs + cs) == ([b] + bs) + cs
  {
  }

  lemma FirstOf(s: seq<Byte>, m: nat)
    requires 0 < m <= |s|
    ensures s[..m] == [s[0]] + s[1..][..m - 1]
  {
  }

  lemma TakeUnread(f: Pool -> Pool, p: Pool)
    requires Fills(f) && Shape(p) && p.have > 0
    ensures TakeByte(f, p) == (Unread(p)[0], SettleBy(f, Consume(p, 1)))
  {
  }

  /** Copying a run of unread bytes is taking them one by one. */
  lemma {:induction false} TakeRunBy(f: Pool -> Pool, p: Pool, m: nat)
    requires Fills(f) && Shape(p) && 0 < m <= p.have
    ensures TakeBytesBy(f, p, m) == (Unread(p)[..m], SettleBy(f, Consume(p, m)))
    decreases m
  {
    hide TakeBytesBy, TakeByte, Consume, Unread;
    TakeFirst(f, p, m);
    ConsumeUnread(p, 1);
    FirstOf(Unread(p), m);
    TakeUnread(f, p);
    if m == 1 {
      TakeNothing(f, TakeByte(f, p).1, m - 1);
    } else {
      TakeRunBy(f, Consume(p, 1), m - 1);
      ConsumeTwice(p, 1, m - 1);
    }
  }

  /** Taking `n` bytes and then `m` is taking `n + m`. */
  lemma {:induction false} TakeAppendBy(f: Pool -> Pool, p: Pool, n: nat, m: nat)
    requires Fills(f) && Shape(p)
    ensures TakeBytesBy(f, p, n + m).0 == TakeBytesBy(f, p, n).0 + TakeBytesBy(f, TakeBytesBy(f, p, n).1, m).0
    ensures TakeBytesBy(f, p, n + m).1 == TakeBytesBy(f, TakeBytesBy(f, p, n).1, m).1
    decreases n
  {
    hide TakeBytesBy, TakeByte;
    if n == 0 {
      TakeNothing(f, p, n);
      assert [] + TakeBytesBy(f, p, m).0 == TakeBytesBy(f, p, m).0;
    } else {
      var q := TakeByte(f, p).1;
      TakeFirst(f, p, n);
      TakeFirst(f, p, n + m);
      TakeAppendBy(f, q, n - 1, m);
      assert n - 1 + m == n + m - 1;
      JoinFirst(TakeByte(f, p).0, TakeBytesBy(f, q, n - 1).0, TakeBytesBy(f, TakeBytesBy(f, p, n).1, m).0);
    }
  }

  lemma {:induction false} TakeKeepsBy(f: Pool -> Pool, p: Pool, n: nat)
    requires Refills(f) && Clean(p)
    ensures var q := TakeBytesBy(f, p, n).1; Clean(q) && q.count == p.count && q.seeded == p.seeded
    decreases n
  {
    if n > 0 {
      ConsumeUnread(SettleBy(f, p), 1);
      TakeKeepsBy(f, TakeByte(f, p).1, n - 1);
    }
  }

  lemma SettleIgnoresCount(f: Pool -> Pool, p: Pool, k: nat)
    requires Refills(f)
    ensures SettleBy(f, Charged(p, k)) == Charged(SettleBy(f, p), k)
  {
  }

  /** Charging the reseed counter does not touch the bytes. */
  lemma {:induction false} TakeIgnoresCountBy(f: Pool -> Pool, p: Pool, n: nat, k: nat)
    requires Refills(f) && Shape(p)
    ensures var b := TakeBytesBy(f, p, n); TakeBytesBy(f, Charged(p, k), n) == (b.0, Charged(b.1, k))
    decreases n
  {
    if n > 0 {
      var q := SettleBy(f, p);
      SettleIgnoresCount(f, p, k);
      assert Consume(Charged(q, k), 1) == Charged(Consume(q, 1), k);
      SettleIgnoresCount(f, Consume(q, 1), k);
      assert TakeByte(f, Charged(p, k)) == (TakeByte(f, p).0, Charged(TakeByte(f, p).1, k));
      TakeIgnoresCountBy(f, TakeByte(f, p).1, n - 1, k);
    }
  }

  lemma TakeRun(p: Pool, m: nat)
    requires Shape(p) && 0 < m <= p.have
    ensures TakeBytes(p, m) == (Unread(p)[..m], Settle(Consume(p, m)))
  {
    RefillRefills();
    TakeRunBy(Refill, p, m);
  }

  lemma TakeAppend(p: Pool, n: nat, m: nat)
    requires Shape(p)
    ensures var b := TakeBytes(p, n); var c := TakeBytes(b.1, m);
      TakeBytes(p, n + m) == (b.0 + c.0, c.1)
  {
    RefillRefills();
    TakeAppendBy(Refill, p, n, m);
  }

  lemma TakeKeeps(p: Pool, n: nat)
    requires Clean(p)
    ensures var q := TakeBytes(p, n).1; Clean(q) && q.count == p.count && q.seeded == p.seeded
  {
    RefillRefills();
    TakeKeepsBy(Refill, p, n);
  }

  lemma TakeIgnoresCount(p: Pool, n: nat, k: nat)
    requires Shape(p)
    ensures TakeBytes(Charged(p, k), n) == (TakeBytes(p, n).0, Charged(TakeBytes(p, n).1, k))
  {
    RefillRefills();
    TakeIgnoresCountBy(Refill, p, n, k);
  }

  /** An empty pool is refilled first. */
  lemma TakeSettled(p: Pool, n: nat)
    requires Shape(p) && n > 0
    ensures Shape(Settle(p)) && TakeBytes(p, n) == TakeBytes(Settle(p), n)
  {
    RefillRefills();
    assert TakeByte(Refill, p) == TakeByte(Refill, Settle(p));
  }

  /** No reseed falls due within the next `n` bytes. */
  predicate Undisturbed(p: Pool, n: nat) { p.seeded && p.count > n }

  lemma NoStir(p: Pool, n: nat, e: Env)
    requires Clean(p) && Undisturbed(p, n) && !e.forked
    ensures RandomBuf(p, n, e) == TakeBytes(Charged(p, p.count - n), n)
    ensures var q := RandomBuf(p, n, e).1; Clean(q) && q.seeded && q.count == p.count - n
  {
    assert StirIfNeeded(p, n, e) == Charged(p, p.count - n);
    TakeKeeps(Charged(p, p.count - n), n);
  }

  lemma TakeInPieces(p: Pool, n: nat, m: nat, k: nat, k': nat)
    requires Clean(p)
    ensures var b := TakeBytes(Charged(p, k), n).1; b.count == k && Clean(b)
    ensures var b := TakeBytes(Charged(p, k), n); var c := TakeBytes(Charged(b.1, k'), m);
      TakeBytes(Charged(p, k'), n + m) == (b.0 + c.0, c.1)
  {
    TakeKeeps(p, n);
    TakeIgnoresCount(p, n, k);
    TakeIgnoresCount(p, n, k');
    TakeAppend(Charged(p, k'), n, m);
  }

  lemma SecondPiece(p: Pool, n: nat, m: nat, q: Pool, e2: Env)
    requires Clean(p) && Undisturbed(p, n + m) && !e2.forked
    requires q == TakeBytes(Charged(p, p.count - n), n).1 && Clean(q) && q.seeded && q.count == p.count - n
    ensures var k := p.count - n - m; var c := RandomBuf(q, m, e2);
      TakeBytes(Charged(p, k), n + m) == (TakeBytes(Charged(p, p.count - n), n).0 + c.0, c.1)
  {
    hide TakeBytes, StirIfNeeded, Clean;
    NoStir(q, m, e2);
    TakeInPieces(p, n, m, p.count - n, p.count - n - m);
  }

  /** The pool is insensitive to chunking: asking for `n` bytes and then for `m` gives the
      bytes and the final state of asking for `n + m`, whatever entropy is on offer. */
  lemma ChunkingIsInvisible(p: Pool, n: nat, m: nat, e: Env, e1: Env, e2: Env)
    requires Clean(p) && Undisturbed(p, n + m) && !e.forked && !e1.forked && !e2.forked
    ensures var b := RandomBuf(p, n, e1); var c := RandomBuf(b.1, m, e2); RandomBuf(p, n + m, e) == (b.0 + c.0, c.1)
  {
    hide TakeBytes, StirIfNeeded;
    NoStir(p, n, e1);
    SecondPiece(p, n, m, RandomBuf(p, n, e1).1, e2);
    NoStir(p, n + m, e);
  }

  lemma NothingAsked(p: Pool, n: nat, e: Env)
    requires Clean(p) && Undisturbed(p, n) && !e.forked && n == 0
    ensures RandomBuf(p, n, e) == ([], p)
  {
    NoStir(p, n, e);
    assert Charged(p, p.count - n) == p;
    RefillRefills();
    TakeNothing(Refill, p, n);
  }

  function Total(ns: seq<nat>): nat { if ns == [] then 0 else ns[0] + Total(ns[1..]) }

  /** A run of requests. */
  function Requests(p: Pool, ns: seq<nat>, es: seq<Env>): (r: (seq<Byte>, Pool))
    requires Shape(p) && |es| == |ns|
    ensures Shape(r.1)
    decreases |ns|
  {
    if ns == [] then ([], p)
    else
      var (bs, q) := RandomBuf(p, ns[0], es[0]);
      var (cs, r) := Requests(q, ns[1..], es[1..]);
      (bs + cs, r)
  }

  lemma {:induction false} RequestsAreOne(p: Pool, ns: seq<nat>, es: seq<Env>, e: Env)
    requires Clean(p) && |es| == |ns| && Undisturbed(p, Total(ns)) && !e.forked && forall i <- es :: !i.forked
    ensures Requests(p, ns, es) == RandomBuf(p, Total(ns), e)
    decreases |ns|
  {
    hide TakeBytes, StirIfNeeded;
    if ns == [] {
      NothingAsked(p, Total(ns), e);
    } else {
      NoStir(p, ns[0], es[0]);
      ChunkingIsInvisible(p, ns[0], Total(ns[1..]), e, es[0], e);
      RequestsAreOne(RandomBuf(p, ns[0], es[0]).1, ns[1..], es[1..], e);
    }
  }

  lemma DrawIsTake(p: Pool)
    requires Shape(p) && (p.have == 0 || p.have >= 4)
    ensures DrawWord(p).0 == FromBytes(TakeBytes(p, 4).0) && Settle(DrawWord(p).1) == TakeBytes(p, 4).1
  {
    TakeSettled(p, 4);
    TakeRun(Settle(p), 4);
  }

  /** A word is the next four bytes, little end first, when four are left or none is. */
  lemma WordIsFourBytes(p: Pool, e: Env)
    requires Shape(p)
    ensures var p1 := StirIfNeeded(p, 4, e); p1.have == 0 || p1.have >= 4 ==>
      RandomU32(p, e).0 == FromBytes(RandomBuf(p, 4, e).0) && Settle(RandomU32(p, e).1) == RandomBuf(p, 4, e).1
  {
    var p1 := StirIfNeeded(p, 4, e);
    if p1.have == 0 || p1.have >= 4 {
      DrawIsTake(p1);
    }
  }

  // ------------------------------------------------------------ every run

  datatype Request = Bytes(n: nat, env: Env) | Word32(env: Env)
  {
    function Size(): nat { if Bytes? then n else 4 }
  }

  function Serve(p: Pool, r: Request): (p': Pool)
    requires Shape(p)
    ensures Shape(p')
  {
    match r
    case Bytes(n, e) => RandomBuf(p, n, e).1
    case Word32(e) => RandomU32(p, e).1
  }

  /** The bytes asked for since the last seeding, after one more request. */
  function Given(p: Pool, given: nat, r: Request): nat {
    if NeedsStir(ForkDetect(p, r.env.forked), r.Size()) then r.Size() else given + r.Size()
  }

  /** Between calls: what is behind the unread bytes is wiped, and the counter says how many
      more bytes may be asked for before the next seeding. */
  predicate Accounted(p: Pool, given: nat) {
    Clean(p) && (p.seeded ==> given + p.count == RESEED || (p.count == 0 && given >= RESEED))
  }

  lemma StirIfNeededKeeps(p: Pool, given: nat, r: Request)
    requires Accounted(p, given)
    ensures var p1 := StirIfNeeded(p, r.Size(), r.env);
      p1.seeded && Accounted(p1, Given(p, given, r)) && (r.Size() < RESEED ==> p1.count > 0)
  {
  }

  lemma ServeKeeps(p: Pool, given: nat, r: Request)
    requires Accounted(p, given)
    ensures Serve(p, r).seeded && Accounted(Serve(p, r), Given(p, given, r))
    ensures r.Size() < RESEED ==> Serve(p, r).count > 0 && Given(p, given, r) < RESEED
  {
    StirIfNeededKeeps(p, given, r);
    var p1 := StirIfNeeded(p, r.Size(), r.env);
    if r.Bytes? {
      TakeKeeps(p1, r.n);
    } else {
      ConsumeUnread(if p1.have < 4 then Refill(p1) else p1, 4);
    }
  }

  function ServeAll(p: Pool, given: nat, rs: seq<Request>): (r: (Pool, nat))
    requires Shape(p)
    ensures Shape(r.0)
    decreases |rs|
  {
    if rs == [] then (p, given) else ServeAll(Serve(p, rs[0]), Given(p, given, rs[0]), rs[1..])
  }

  lemma {:induction false} RunKeeps(p: Pool, given: nat, rs: seq<Request>)
    requires Accounted(p, given)
    ensures Accounted(ServeAll(p, given, rs).0, ServeAll(p, given, rs).1)
    decreases |rs|
  {
    if rs != [] {
      ServeKeeps(p, given, rs[0]);
      RunKeeps(Serve(p, rs[0]), Given(p, given, rs[0]), rs[1..]);
    }
  }

  /** In every state between calls the spent part of the pool is wiped; and with requests
      below 1,600,000 bytes, fewer than that are ever given out per seeding. */
  lemma {:induction false} EveryRun(p: Pool, given: nat, rs: seq<Request>)
    requires Accounted(p, given) && (p.seeded ==> given < RESEED)
    ensures var (q, total) := ServeAll(p, given, rs);
      Accounted(q, total) && ((forall r <- rs :: r.Size() < RESEED) && q.seeded ==> total < RESEED)
    decreases |rs|
  {
    if rs != [] {
      ServeKeeps(p, given, rs[0]);
      if rs[0].Size() < RESEED {
        EveryRun(Serve(p, rs[0]), Given(p, given, rs[0]), rs[1..]);
        assert forall r <- rs[1..] :: r in rs;
      } else {
        RunKeeps(Serve(p, rs[0]), Given(p, given, rs[0]), rs[1..]);
        assert rs[0] in rs;
      }
    }
  }

  // ------------------------------------------------------------ the pool object

  lemma ConsumeNone(p: Pool)
    requires Shape(p)
    ensures Consume(p, 0) == p
  {
    assert Zeros(0) == [] && p.buf[..RSBUFSZ - p.have] + [] + p.buf[RSBUFSZ - p.have..] == p.buf;
  }

  /** With `given` handed out, `left` more bytes from pool `p` make what is due. */
  ghost predicate Owes(given: seq<Byte>, p: Pool, left: nat, due: (seq<Byte>, Pool)) {
    Shape(p) && due == (given + TakeBytes(p, left).0, TakeBytes(p, left).1)
  }

  lemma AllOwed(given: seq<Byte>, p: Pool, n: nat)
    requires Shape(p) && given == []
    ensures Owes(given, p, n, TakeBytes(p, n))
  {
    assert given + TakeBytes(p, n).0 == TakeBytes(p, n).0;
  }

  lemma NothingOwed(given: seq<Byte>, p: Pool, left: nat, due: (seq<Byte>, Pool))
    requires Owes(given, p, left, due) && left == 0
    ensures due == (given, p)
  {
    RefillRefills();
    assert TakeBytes(p, left) == ([], p) && given + [] == given;
  }

  /** One pass of the loop, seen from the bytes still due. */
  lemma TakeSome(given: seq<Byte>, p: Pool, m: nat, rest: nat, due: (seq<Byte>, Pool))
    requires Owes(given, p, m + rest, due)
    requires m <= p.have && (p.have > 0 ==> m > 0) && m + rest > 0
    ensures Owes(given + Unread(p)[..m], Settle(Consume(p, m)), rest, due)
  {
    var q := Settle(Consume(p, m));
    if m == 0 {
      ConsumeNone(p);
      TakeSettled(p, rest);
      assert given + Unread(p)[..m] == given;
    } else {
      TakeRun(p, m);
      TakeAppend(p, m, rest);
      assert given + (Unread(p)[..m] + TakeBytes(q, rest).0) == (given + Unread(p)[..m]) + TakeBytes(q, rest).0;
    }
  }

  /** Key and nonce of a context are the first 40 bytes, little end first, and its counter is 0. */
  ghost predicate Keyed(j: State, bytes: seq<Byte>)
    requires |bytes| >= 40
  {
    && (forall i: nat :: i < 8 ==> j[4 + i] == LittleEndian(bytes, 4 * i))
    && (forall i: nat :: i < 2 ==> j[14 + i] == LittleEndian(bytes, 32 + 4 * i))
    && j[12] == 0 && j[13] == 0
  }

  /** Keystream and entropy, byte by byte. */
  function Mixed(ks: seq<Byte>, rnd: seq<Byte>): (r: seq<Byte>)
    requires |ks| >= 40 && |rnd| >= 40
    ensures |r| == 40
  {
    seq(40, i requires 0 <= i < 40 => XorByte(ks[i], rnd[i]))
  }

  lemma SetupKeys(bytes: seq<Byte>, from: seq<Byte>)
    requires |bytes| >= 40 && |from| >= 40 && bytes[..40] == from[..40]
    ensures Keyed(Setup(bytes[..KEYSZ], bytes[KEYSZ..KEYSZ + IVSZ]), from)
  {
    assert forall i :: 0 <= i < 40 ==> bytes[i] == bytes[..40][i] == from[..40][i] == from[i];
    forall i: nat | i < 8 ensures Words(bytes[..KEYSZ])[i] == LittleEndian(from, 4 * i) {
      WordsAt(bytes[..KEYSZ], i);
    }
    forall i: nat | i < 2 ensures Words(bytes[KEYSZ..KEYSZ + IVSZ])[i] == LittleEndian(from, 32 + 4 * i) {
      WordsAt(bytes[KEYSZ..KEYSZ + IVSZ], i);
    }
  }

  /** The next key and nonce: without new data the first bytes of the keystream, and with
      40 bytes or more the two mixed. */
  lemma RekeyKeys(p: Pool, dat: seq<Byte>)
    ensures |dat| == 0 ==> Keyed(Rekey(p, dat).ctx, Stream(p.ctx, 1024))
    ensures |dat| >= 40 ==> Keyed(Rekey(p, dat).ctx, Mixed(Stream(p.ctx, 1024), dat))
  {
    hide Setup, Stream, XorByte, Keyed;
    var ks := Stream(p.ctx, RSBUFSZ);
    if |dat| == 0 { SetupKeys(Mix(ks, dat, 0), ks); }
    if |dat| >= 40 { SetupKeys(Mix(ks, dat, 40), Mixed(ks, dat)); }
  }

  lemma StirKeys(p: Pool, rnd: Entropy)
    ensures Keyed(Stir(p, rnd).ctx, if p.seeded then Mixed(Stream(p.ctx, 1024), rnd) else rnd)
  {
    hide Setup, Stream, Keyed, Mixed, Rekey;
    RekeyKeys(p, rnd);
    assert rnd[KEYSZ..] == rnd[KEYSZ..KEYSZ + IVSZ];
    SetupKeys(rnd, rnd);
  }

  lemma RekeyFrom(p: Pool, dat: seq<Byte>, bytes: seq<Byte>, q: Pool)
    requires bytes == Mix(Stream(p.ctx, RSBUFSZ), dat, if |dat| < KEYSZ + IVSZ then |dat| else KEYSZ + IVSZ)
    requires q.ctx == Setup(bytes[..KEYSZ + IVSZ][..KEYSZ], bytes[..KEYSZ + IVSZ][KEYSZ..KEYSZ + IVSZ])
    requires q.buf == [] + Zeros(KEYSZ + IVSZ) + bytes[KEYSZ + IVSZ..] && q.have == RSBUFSZ - KEYSZ - IVSZ
    requires q.seeded == p.seeded && q.count == p.count
    ensures Shape(q) && q == Rekey(p, dat)
    ensures forall i :: 0 <= i < 40 ==> q.buf[i] == 0
    ensures forall i :: 40 <= i < 1024 ==> q.buf[i] == Stream(p.ctx, 1024)[i]
  {
    hide Setup, Stream, XorByte;
    assert bytes[..KEYSZ + IVSZ][..KEYSZ] == bytes[..KEYSZ];
    assert bytes[..KEYSZ + IVSZ][KEYSZ..KEYSZ + IVSZ] == bytes[KEYSZ..KEYSZ + IVSZ];
    assert [] + Zeros(KEYSZ + IVSZ) == Zeros(KEYSZ + IVSZ);
  }

  // ------------------------------------------------------------ which bytes are given out

  lemma RefilledBytes(p: Pool)
    ensures Unread(Refill(p)) == Stream(p.ctx, 1024)[40..]
  {
    hide Stream, Setup;
  }

  lemma SpentAll(p: Pool)
    requires Shape(p)
    ensures Consume(p, p.have).have == 0 && Consume(p, p.have).ctx == p.ctx
  {
  }

  /** What is left in the pool is given out first, and then the keystream from byte 40 on. */
  lemma Served(p: Pool, n: nat)
    requires Shape(p) && n <= p.have + 984
    ensures TakeBytes(p, n).0 == (p.buf[1024 - p.have..] + Stream(p.ctx, 1024)[40..])[..n]
  {
    hide TakeBytes, Stream, Consume, Refill;
    var q := if p.have == 0 then p else Consume(p, p.have);
    RefilledBytes(q);
    if n == 0 {
    } else if n <= p.have {
      TakeRun(p, n);
    } else if p.have == 0 {
      TakeSettled(p, n);
      TakeRun(Refill(p), n);
    } else {
      TakeAppend(p, p.have, n - p.have);
      TakeRun(p, p.have);
      SpentAll(p);
      TakeRun(Refill(q), n - p.have);
    }
  }

  class Arc4Random {
    var seeded: bool
    var have: nat
    var count: nat

    const chacha: ChachaCtx
    const buf: array<Byte>

    ghost function View(): Pool
      reads this, chacha, buf
    {
      Pool(seeded, chacha.input, buf[..], have, count)
    }

    ghost predicate Valid()
      reads this, chacha, buf
    {
      buf.Length == RSBUFSZ && Shape(View())
    }

    constructor ()
      ensures Valid() && Clean(View()) && !seeded && fresh(chacha) && fresh(buf)
    {
      seeded, have, count := false, 0, 0;
      chacha := new ChachaCtx();
      buf := new Byte[RSBUFSZ](_ => 0);
    }

    /** `_rs_init`. */
    method RsInit(dat: seq<Byte>)
      modifies chacha
      ensures chacha.input ==
        if |dat| < KEYSZ + IVSZ then old(chacha.input) else Setup(dat[..KEYSZ], dat[KEYSZ..KEYSZ + IVSZ])
    {
      if |dat| < KEYSZ + IVSZ {
        return;
      }
      chacha.KeySetup(dat[..KEYSZ]);
      chacha.IvSetup(dat[KEYSZ..KEYSZ + IVSZ]);
    }

    /** `memset(rs_buf + at, 0, n)`. */
    method Wipe(at: nat, n: nat)
      requires at + n <= buf.Length
      modifies buf
      ensures buf[..] == old(buf[..at]) + Zeros(n) + old(buf[at + n..])
    {
      for i := 0 to n
        invariant buf[..] == old(buf[..at]) + Zeros(i) + old(buf[at + i..])
      {
        buf[at + i] := 0;
      }
    }

    /** The loop that mixes in user data. */
    method MixIn(dat: seq<Byte>, m: nat)
      requires m <= buf.Length && m <= |dat|
      modifies buf
      ensures buf[..] == Mix(old(buf[..]), dat, m)
    {
      for i := 0 to m
        invariant buf[..] == Mix(old(buf[..]), dat, i)
      {
        buf[i] := XorByte(buf[i], dat[i]);
      }
    }

    method FillWithKeystream()
      requires Valid()
      modifies chacha, buf
      ensures buf[..] == Stream(old(chacha.input), RSBUFSZ)
    {
      chacha.EncryptBytes(buf, 0, buf.Length);
      assert buf[..] == buf[..0 + buf.Length] && buf[..0] == [];
    }

    /** `_rs_rekey`. */
    method RsRekey(dat: seq<Byte>)
      requires Valid()
      modifies this`have, chacha, buf
      ensures Valid() && View() == Rekey(old(View()), dat)
      ensures have == 984 && forall i :: 0 <= i < 40 ==> buf[i] == 0
      ensures forall i :: 40 <= i < 1024 ==> buf[i] == Stream(old(chacha.input), 1024)[i]
      ensures |dat| == 0 ==> Keyed(chacha.input, Stream(old(chacha.input), 1024))
      ensures |dat| >= 40 ==> Keyed(chacha.input, Mixed(Stream(old(chacha.input), 1024), dat))
    {
      hide Stream, Setup, Keyed, Mixed, Rekey;
      ghost var p := View();
      FillWithKeystream();
      var m := if |dat| < KEYSZ + IVSZ then |dat| else KEYSZ + IVSZ;
      MixIn(dat, m);
      ghost var bytes := buf[..];
      RsInit(buf[..KEYSZ + IVSZ]);
      Wipe(0, KEYSZ + IVSZ);
      have := buf.Length - KEYSZ - IVSZ;
      RekeyFrom(p, dat, bytes, View());
      RekeyKeys(p, dat);
    }

    /** `_rs_stir`. */
    method RsStir(rnd: Entropy)
      requires Valid()
      modifies this, chacha, buf
      ensures Valid() && View() == Stir(old(View()), rnd)
      ensures seeded && have == 0 && count == 1600000 && forall i :: 0 <= i < 1024 ==> buf[i] == 0
      ensures Keyed(chacha.input, if old(seeded) then Mixed(Stream(old(chacha.input), 1024), rnd) else rnd)
    {
      StirKeys(View(), rnd);
      if !seeded {
        seeded := true;
        assert rnd[KEYSZ..KEYSZ + IVSZ] == rnd[KEYSZ..];
        RsInit(rnd);
      } else {
        RsRekey(rnd);
      }
      have := 0;
      Wipe(0, buf.Length);
      assert buf[..] == Zeros(RSBUFSZ);
      count := RESEED;
    }

    /** `_rs_stir_if_needed`. */
    method RsStirIfNeeded(len: nat, e: Env)
      requires Valid()
      modifies this, chacha, buf
      ensures Valid() && View() == StirIfNeeded(old(View()), len, e)
      // a first call, a fork or a spent count brings new entropy, and nothing else does
      ensures !old(seeded) || e.forked || old(count) <= len ==>
        && seeded && have == 0 && chacha.input == Stir(old(View()), e.rnd).ctx
        && count == (if 1600000 <= len then 0 else 1600000 - len)
        && Keyed(chacha.input, if old(seeded) then Mixed(Stream(old(chacha.input), 1024), e.rnd) else e.rnd)
      ensures old(seeded) && !e.forked && old(count) > len ==> View() == old(View()).(count := old(count) - len)
    {
      if e.forked && seeded {
        have, count := 0, 0;
      }
      if !seeded || count <= len {
        RsStir(e.rnd);
      }
      if count <= len {
        count := 0;
      } else {
        count := count - len;
      }
    }

    /** `memcpy(out + at, rs_buf + from, m)`. */
    method CopyRun(out: array<Byte>, at: nat, from: nat, m: nat)
      requires out != buf && from + m <= buf.Length && at + m <= out.Length
      modifies out
      ensures out[..at + m] == old(out[..at]) + buf[from..from + m] && out[at + m..] == old(out[at + m..])
    {
      for i := 0 to m
        invariant forall j :: 0 <= j < at ==> out[j] == old(out[j])
        invariant forall j :: at <= j < at + i ==> out[j] == buf[from + j - at]
        invariant forall j :: at + i <= j < out.Length ==> out[j] == old(out[j])
      {
        out[at + i] := buf[from + i];
      }
    }

    /** The body of the loop of `_rs_random_buf`: copy what is there and wipe it. */
    method CopyOut(out: array<Byte>, at: nat, m: nat)
      requires Valid() && out != buf && m <= have && at + m <= out.Length
      modifies this`have, buf, out
      ensures Valid() && View() == Consume(old(View()), m)
      ensures out[..at + m] == old(out[..at]) + Unread(old(View()))[..m] && out[at + m..] == old(out[at + m..])
    {
      var keystream := buf.Length - have;
      CopyRun(out, at, keystream, m);
      assert buf[keystream..keystream + m] == Unread(View())[..m];
      Wipe(keystream, m);
      have := have - m;
    }

    /** The body of the loop of `_rs_random_buf`. */
    method CopyAndRefill(out: array<Byte>, at: nat, left: nat) returns (m: nat)
      requires Valid() && out != buf && at + left <= out.Length
      modifies this`have, chacha, buf, out
      ensures m == if left < old(have) then left else old(have)
      ensures Valid() && View() == Settle(Consume(old(View()), m)) && have > 0
      ensures out[..at + m] == old(out[..at]) + Unread(old(View()))[..m] && out[at + left..] == old(out[at + left..])
    {
      ConsumeNone(View());
      m := 0;
      if have > 0 {
        m := if left < have then left else have;
        CopyOut(out, at, m);
        assert out[at + left..] == out[at + m..][left - m..];
      }
      if have == 0 {
        RsRekey([]);
      }
    }

    /** One pass of the loop pays part of what is due. */
    method OnePass(out: array<Byte>, at: nat, left: nat, ghost due: (seq<Byte>, Pool)) returns (m: nat)
      requires Valid() && out != buf && at + left <= out.Length && left > 0
      requires Owes(out[..at], View(), left, due)
      modifies this`have, chacha, buf, out
      ensures Valid() && m <= left && have > 0 && (old(have) > 0 ==> m > 0)
      ensures Owes(out[..at + m], View(), left - m, due) && out[at + left..] == old(out[at + left..])
    {
      hide TakeBytes, Settle, Consume, Unread, Arc4Random.Valid;
      ghost var p, given := View(), out[..at];
      m := CopyAndRefill(out, at, left);
      TakeSome(given, p, m, left - m, due);
    }

    /** The loop of `_rs_random_buf`. A pass that only refills takes no byte; the loop ends
        because no two such passes follow each other. */
    method Drain(out: array<Byte>, n: nat)
      requires Valid() && out != buf && n <= out.Length
      modifies this`have, chacha, buf, out
      ensures Valid() && (out[..n], View()) == TakeBytes(old(View()), n) && out[n..] == old(out[n..])
      ensures n <= old(have) + 984 ==>
        out[..n] == (old(buf[..])[1024 - old(have)..] + Stream(old(chacha.input), 1024)[40..])[..n]
    {
      hide Owes, TakeBytes, Stream;
      if n <= have + 984 { Served(View(), n); }
      var left: nat := n;
      ghost var due := TakeBytes(View(), n);
      AllOwed(out[..n - left], View(), n);
      while left > 0
        invariant Valid() && left <= n && out[n..] == old(out[n..]) && Owes(out[..n - left], View(), left, due)
        decreases left, if have == 0 then 1 else 0
      {
        var m := OnePass(out, n - left, left, due);
        left := left - m;
      }
      NothingOwed(out[..n - left], View(), left, due);
    }

    /** `_rs_random_buf`. */
    method RsRandomBuf(out: array<Byte>, n: nat, e: Env)
      requires Valid() && out != buf && n <= out.Length
      modifies this, chacha, buf, out
      ensures Valid() && (out[..n], View()) == RandomBuf(old(View()), n, e) && out[n..] == old(out[n..])
      // what is left in the pool first, and new keystream from byte 40 on, under a new key if one was due
      ensures old(seeded) && !e.forked && old(count) > n && n <= old(have) + 984 ==>
        out[..n] == (old(buf[..])[1024 - old(have)..] + Stream(old(chacha.input), 1024)[40..])[..n]
      ensures (!old(seeded) || e.forked || old(count) <= n) && n <= 984 ==>
        out[..n] == Stream(Stir(old(View()), e.rnd).ctx, 1024)[40..][..n]
    {
      hide Stream, Stir, TakeBytes, Keyed;
      RsStirIfNeeded(n, e);
      assert have == 0 ==>
        buf[..][1024 - have..] + Stream(chacha.input, 1024)[40..] == Stream(chacha.input, 1024)[40..];
      Drain(out, n);
    }

    /** Four bytes at once, from a pool that has been refilled if need be. */
    method ReadWord() returns (val: Word)
      requires Valid()
      modifies this`have, chacha, buf
      ensures Valid() && (val, View()) == DrawWord(old(View()))
      ensures val == if old(have) >= 4 then LittleEndian(old(buf[..]), 1024 - old(have))
        else LittleEndian(Stream(old(chacha.input), 1024), 40)
    {
      if have < 4 {
        RsRekey([]);
      }
      ghost var q := View();
      var keystream := buf.Length - have;
      assert buf[keystream..keystream + 4] == Unread(q)[..4];
      val := FromBytes(buf[keystream..keystream + 4]);
      Wipe(keystream, 4);
      have := have - 4;
      assert View() == Consume(q, 4);
    }

    /** `_rs_random_u32`. */
    method RsRandomU32(e: Env) returns (val: Word)
      requires Valid()
      modifies this, chacha, buf
      ensures Valid() && (val, View()) == RandomU32(old(View()), e)
      ensures old(seeded) && !e.forked && old(count) > 4 ==>
        val == (if old(have) >= 4 then LittleEndian(old(buf[..]), 1024 - old(have))
                else LittleEndian(Stream(old(chacha.input), 1024), 40))
      ensures !old(seeded) || e.forked || old(count) <= 4 ==>
        val == LittleEndian(Stream(Stir(old(View()), e.rnd).ctx, 1024), 40)
    {
      hide Stream, Stir, DrawWord, LittleEndian, Keyed;
      RsStirIfNeeded(4, e);
      val := ReadWord();
    }
  }
}
