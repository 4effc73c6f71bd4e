/** The address arithmetic of `BibopHeap`: the geometry computed by `initialize`, the
    translations between object addresses and shadow entries, the bump pointer and the
    canary walk, all parametric in the powers of two that configure the heap. */
module Layout {
  import opened Arithmetic

  const MIN_BLOCK_BITS: nat := 4
  const PAGE_BITS: nat := 12
  const PAGE: nat := 4096
  const SET_SIZE: nat := 4
  const RANDOMIZER: nat := 32   // BIBOP_BAG_SET_RANDOMIZER
  const SHADOW_INFO: nat := 8
  const NUM_HEAPS: nat := 1024
  const UINT_BITS: nat := 32   // of the operand of __builtin_clz

  /** Binary logarithms of the sizes, and the bases of the two mappings. */
  datatype Config = Config(
    bagBits: nat,        // _bibopBagSize
    bagCountBits: nat,   // BIBOP_NUM_BAGS
    threadBits: nat,     // MAX_ALIVE_THREADS
    largeBits: nat,      // LARGE_OBJECT_THRESHOLD
    heapBegin: nat,
    shadowBegin: nat)
  {
    /** What `initialize` asserts or takes for granted. */
    ghost predicate Valid() {
      && MIN_BLOCK_BITS <= largeBits <= bagBits && largeBits < UINT_BITS
      && PAGE_BITS < bagBits
      && largeBits - MIN_BLOCK_BITS + 1 <= Pow2(bagCountBits)
      && heapBegin % PAGE == 0
    }

    function BagSize(): nat { Pow2(bagBits) }
    function NumBags(): nat { Pow2(bagCountBits) }
    function Threads(): nat { Pow2(threadBits) }
    function ThreadShiftBits(): nat { bagCountBits + bagBits }
    function BagsPerHeapShiftBits(): nat { bagCountBits + threadBits }
    function HeapBits(): nat { bagCountBits + threadBits + bagBits }
    function HeapSize(): nat { Pow2(HeapBits()) }

    function UsableBags(): nat
      requires MIN_BLOCK_BITS <= largeBits
    {
      largeBits - MIN_BLOCK_BITS + 1
    }
  }

  function ClassSize(bag: nat): nat { Pow2(MIN_BLOCK_BITS + bag) }

  /** Bytes at the end of a bag that hold no object. */
  function GuardOffset(c: Config, bag: nat): nat
    requires c.Valid()
  {
    if bag + 1 == c.UsableBags() && c.bagBits == c.largeBits then 0
    else if ClassSize(bag) > PAGE then ClassSize(bag) else PAGE
  }

  /** Bytes protected behind the last object; the last usable bag also covers the unusable ones. */
  function GuardSize(c: Config, bag: nat): nat
    requires c.Valid()
  {
    var unusable: nat := c.NumBags() - c.UsableBags();
    GuardOffset(c, bag) + if bag + 1 == c.UsableBags() then unusable * c.BagSize() else 0
  }

  function NumObjects(c: Config, bag: nat): int {
    var n := c.BagSize() / ClassSize(bag);
    if n > 1 then
      if ClassSize(bag) < PAGE then n - PAGE / ClassSize(bag) else n - 1
    else n
  }

  // ------------------------------------------------------------ bag geometry

  lemma PageBits()
    ensures Pow2(PAGE_BITS) == PAGE
  {
    assert Pow2(4) == 16;
    Pow2Add(4, 4);
    Pow2Add(8, 4);
  }

  /** A class size either divides the page into several objects or is a number of pages. */
  lemma ClassVersusPage(bag: nat)
    ensures ClassSize(bag) < PAGE ==>
      bag < 8 && PAGE == Pow2(8 - bag) * ClassSize(bag) && PAGE / ClassSize(bag) == Pow2(8 - bag)
    ensures ClassSize(bag) >= PAGE ==> bag >= 8 && ClassSize(bag) % PAGE == 0
  {
    PageBits();
    if bag < 8 {
      Pow2Add(8 - bag, MIN_BLOCK_BITS + bag);
      Pow2Strict(MIN_BLOCK_BITS + bag, PAGE_BITS);
      MulMod(Pow2(8 - bag), ClassSize(bag));
    } else {
      Pow2Monotone(PAGE_BITS, MIN_BLOCK_BITS + bag);
      Pow2Add(bag - 8, PAGE_BITS);
      MulMod(Pow2(bag - 8), PAGE);
    }
  }

  /** In each of the guard-page cases the objects of a bag, then the gap `GuardOffset`,
      fill the bag exactly, so `NumObjects - 1` is the index of `lastofCurBag`. */
  lemma BagIsFilled(c: Config, bag: nat)
    requires c.Valid() && bag < c.UsableBags()
    ensures NumObjects(c, bag) >= 1
    ensures NumObjects(c, bag) * ClassSize(bag) + GuardOffset(c, bag) == c.BagSize()
  {
    var cs := ClassSize(bag);
    var k := c.bagBits - MIN_BLOCK_BITS - bag;
    Pow2Add(k, MIN_BLOCK_BITS + bag);
    MulMod(Pow2(k), cs);
    var n := c.BagSize() / cs;
    assert n == Pow2(k) && n * cs == c.BagSize();
    ClassVersusPage(bag);
    PageBits();
    Pow2Strict(PAGE_BITS, c.bagBits);
    if k > 0 {
      Pow2Strict(0, k);
      if cs < PAGE {
        var q := PAGE / cs;
        MulDistrib(n - q, q, cs);
        assert (n - q) * cs >= PAGE;
        if n - q < 1 { MulMonotone(n - q, 0, cs); }
      } else {
        MulDistrib(n - 1, 1, cs);
      }
    } else {
      assert n == 1 && n * cs == cs;
    }
  }

  // ------------------------------------------------------------ shadow geometry

  /** Objects of the bags below `bag` in one thread's sub-heap. */
  function ObjectsBefore(c: Config, bag: nat): nat
    requires c.Valid() && bag <= c.UsableBags()
  {
    if bag == 0 then 0
    else
      BagIsFilled(c, bag - 1);
      ObjectsBefore(c, bag - 1) + NumObjects(c, bag - 1)
  }

  function ObjectsPerThread(c: Config): nat
    requires c.Valid()
  {
    ObjectsBefore(c, c.UsableBags())
  }

  /** Offset of the first shadow entry of a bag inside one heap's shadow. */
  function StartShadow(c: Config, thread: nat, bag: nat): nat
    requires c.Valid() && bag <= c.UsableBags()
  {
    MulMonotone(0, thread, ObjectsPerThread(c));
    (thread * ObjectsPerThread(c) + ObjectsBefore(c, bag)) * SHADOW_INFO
  }

  function ShadowSizePerHeap(c: Config): nat
    requires c.Valid()
  {
    c.Threads() * ObjectsPerThread(c) * SHADOW_INFO
  }

  /** `8 * sizeof(size_t) - clzl(size - 1)`. */
  function ShadowCeilBits(c: Config): nat
    requires c.Valid()
  {
    var size := ShadowSizePerHeap(c);
    if size < 2 then 0 else Log2(size - 1) + 1
  }

  function ShadowCeil(c: Config): nat
    requires c.Valid()
  {
    Pow2(ShadowCeilBits(c))
  }

  lemma {:induction false} ObjectsBeforeMonotone(c: Config, a: nat, b: nat)
    requires c.Valid() && a <= b <= c.UsableBags()
    ensures ObjectsBefore(c, a) <= ObjectsBefore(c, b)
    decreases b
  {
    if a < b {
      BagIsFilled(c, b - 1);
      ObjectsBeforeMonotone(c, a, b - 1);
    }
  }

  /** A bag's shadow entries stay inside its thread's share of the shadow. */
  lemma ObjectIndexBound(c: Config, bag: nat, idx: nat)
    requires c.Valid() && bag < c.UsableBags() && idx < NumObjects(c, bag)
    ensures ObjectsBefore(c, bag) + idx < ObjectsBefore(c, bag + 1) <= ObjectsPerThread(c)
  {
    ObjectsBeforeMonotone(c, bag + 1, c.UsableBags());
  }

  /** The rounded-up shadow size is at least the real one and less than twice it. */
  lemma ShadowCeilBounds(c: Config)
    requires c.Valid()
    ensures SHADOW_INFO <= ShadowSizePerHeap(c) <= ShadowCeil(c) < 2 * ShadowSizePerHeap(c)
  {
    BagIsFilled(c, 0);
    ObjectIndexBound(c, 0, 0);
    var size := ShadowSizePerHeap(c);
    MulMonotone(1, c.Threads(), ObjectsPerThread(c));
    Log2Bounds(size - 1);
  }

  // ------------------------------------------------------------ locations

  /** One object slot: its heap, its bag and its index in the bag. */
  datatype Loc = Loc(heap: nat, thread: nat, bag: nat, idx: nat)

  ghost predicate ValidLoc(c: Config, l: Loc) {
    c.Valid() && l.thread < c.Threads() && l.bag < c.UsableBags() && l.idx < NumObjects(c, l.bag)
  }

  /** `globalBagNum`: bags counted through all heaps and threads. */
  function GlobalBag(c: Config, heap: nat, thread: nat, bag: nat): nat {
    (heap * c.Threads() + thread) * c.NumBags() + bag
  }

  function BagStart(c: Config, heap: nat, thread: nat, bag: nat): nat {
    c.heapBegin + GlobalBag(c, heap, thread, bag) * c.BagSize()
  }

  /** Where a slot lies in the heap mapping. */
  function AddrOf(c: Config, l: Loc): nat {
    BagStart(c, l.heap, l.thread, l.bag) + l.idx * ClassSize(l.bag)
  }

  /** Where a slot's entry lies in the shadow mapping. */
  function ShadowOf(c: Config, l: Loc): nat
    requires c.Valid() && l.bag <= c.UsableBags()
  {
    c.shadowBegin + l.heap * ShadowCeil(c) + StartShadow(c, l.thread, l.bag) + l.idx * SHADOW_INFO
  }

  /** What the address decoder stores through its pointers, and the shadow entry it returns. */
  datatype Decoded = Misaligned | Object(thread: nat, bag: nat, setItem: nat, shadow: nat)

  /** `globalBagNum & _numBagsPerSubHeapMask` for an address in the heap mapping. */
  function BagOfAddr(c: Config, addr: nat): nat
    requires c.heapBegin <= addr
  {
    Mask(Shr(addr - c.heapBegin, c.bagBits), c.bagCountBits)
  }

  /** `heapIndex` of an address. */
  function HeapOfAddr(c: Config, addr: nat): nat
    requires c.heapBegin <= addr
  {
    Shr(Shr(addr - c.heapBegin, c.bagBits), c.BagsPerHeapShiftBits())
  }

  /** `localHeapOffset >> _threadShiftBits`. */
  function ThreadOfAddr(c: Config, addr: nat): nat
    requires c.heapBegin <= addr
  {
    Shr(Mask(addr - c.heapBegin, c.HeapBits()), c.ThreadShiftBits())
  }

  /** `getShadowObjectInfo(addr, bag)`, which trusts the bag it is given. */
  function GetShadowInBag(c: Config, addr: nat, thread: nat, bag: nat): nat
    requires c.Valid() && c.heapBegin <= addr && bag < c.UsableBags()
  {
    var localBagOffset := Mask(addr - c.heapBegin, c.bagBits);
    c.shadowBegin + Shl(HeapOfAddr(c, addr), ShadowCeilBits(c)) + StartShadow(c, thread, bag)
      + Shr(localBagOffset, MIN_BLOCK_BITS + bag) * SHADOW_INFO
  }

  /** `getShadowObjectInfo(addr, &bag, &numBagSetItem)`. The record of an unusable bag is zero
      as the storage it lies in: no class mask, no shift and the start of the shadow. */
  function GetShadowObjectInfo(c: Config, addr: nat): Decoded
    requires c.Valid() && c.heapBegin <= addr
  {
    var thread, bag := ThreadOfAddr(c, addr), BagOfAddr(c, addr);
    var localBagOffset := Mask(addr - c.heapBegin, c.bagBits);
    if bag >= c.UsableBags() then
      Object(thread, bag, HeapOfAddr(c, addr) % SET_SIZE,
        c.shadowBegin + Shl(HeapOfAddr(c, addr), ShadowCeilBits(c)) + localBagOffset * SHADOW_INFO)
    else if Mask(localBagOffset, MIN_BLOCK_BITS + bag) != 0 then Misaligned
    else Object(thread, bag, HeapOfAddr(c, addr) % SET_SIZE, GetShadowInBag(c, addr, thread, bag))
  }

  /** `getHeapNumber(shadowinfo)`. */
  function ShadowHeap(c: Config, shadow: nat): nat
    requires c.Valid() && c.shadowBegin <= shadow
  {
    Shr(shadow - c.shadowBegin, ShadowCeilBits(c))
  }

  /** `objectindex` as computed from a shadow entry of the given bag. */
  function ShadowIndex(c: Config, shadow: nat, thread: nat, bag: nat): int
    requires c.Valid() && c.shadowBegin <= shadow && bag < c.UsableBags()
  {
    (Mask(shadow - c.shadowBegin, ShadowCeilBits(c)) - StartShadow(c, thread, bag)) / SHADOW_INFO
  }

  /** `getAddrFromShadowInfo(shadowaddr, bag)`. */
  function GetAddrFromShadowInfo(c: Config, shadow: nat, thread: nat, bag: nat): int
    requires c.Valid() && c.shadowBegin <= shadow && bag < c.UsableBags()
  {
    var startOffset := BagStart(c, 0, thread, bag) - c.heapBegin;
    c.heapBegin + Shl(ShadowHeap(c, shadow), c.HeapBits()) + startOffset
      + ShadowIndex(c, shadow, thread, bag) * ClassSize(bag)
  }

  // ------------------------------------------------------------ the translations agree

  lemma SizesFactor(c: Config)
    ensures Pow2(c.ThreadShiftBits()) == c.NumBags() * c.BagSize()
    ensures Pow2(c.BagsPerHeapShiftBits()) == c.NumBags() * c.Threads()
    ensures c.HeapSize() == (c.NumBags() * c.Threads()) * c.BagSize()
    ensures c.HeapSize() == c.Threads() * (c.NumBags() * c.BagSize())
  {
    Pow2Add(c.bagCountBits, c.bagBits);
    Pow2Add(c.bagCountBits, c.threadBits);
    Pow2Add(c.bagCountBits + c.threadBits, c.bagBits);
    var n, t, b := c.NumBags(), c.Threads(), c.BagSize();
    MulAssoc(t, n, b);
    assert n * t == t * n;
  }

  lemma IndexInBag(c: Config, bag: nat, idx: nat)
    requires c.Valid() && bag < c.UsableBags() && idx < NumObjects(c, bag)
    ensures idx * ClassSize(bag) + ClassSize(bag) + GuardOffset(c, bag) <= c.BagSize()
    ensures idx * ClassSize(bag) < c.BagSize()
  {
    BagIsFilled(c, bag);
    MulGap(idx, NumObjects(c, bag), ClassSize(bag));
  }

  /** A bag number counted through all heaps, with the thread and bag digits exposed. */
  lemma GlobalBagSplit(c: Config, heap: nat, thread: nat, bag: nat)
    ensures GlobalBag(c, heap, thread, bag) == heap * (c.NumBags() * c.Threads()) + GlobalBag(c, 0, thread, bag)
    ensures GlobalBag(c, 0, thread, bag) == thread * c.NumBags() + bag
    ensures GlobalBag(c, heap, thread, bag) * c.BagSize()
      == heap * c.HeapSize() + GlobalBag(c, 0, thread, bag) * c.BagSize()
  {
    var n, t, b := c.NumBags(), c.Threads(), c.BagSize();
    assert GlobalBag(c, heap, thread, bag) == heap * (n * t) + (thread * n + bag) by {
      MulDistrib(heap * t, thread, n);
      MulAssoc(heap, t, n);
      assert t * n == n * t;
    }
    SizesFactor(c);
    assert GlobalBag(c, heap, thread, bag) * b == heap * c.HeapSize() + (thread * n + bag) * b by {
      MulDistrib(heap * (n * t), thread * n + bag, b);
      MulAssoc(heap, n * t, b);
    }
  }

  lemma GlobalBagDigits(c: Config, heap: nat, thread: nat, bag: nat)
    requires thread < c.Threads() && bag < c.NumBags()
    ensures GlobalBag(c, 0, thread, bag) < c.NumBags() * c.Threads()
    ensures GlobalBag(c, heap, thread, bag) % c.NumBags() == bag
    ensures Shr(GlobalBag(c, heap, thread, bag), c.BagsPerHeapShiftBits()) == heap
  {
    var n, t := c.NumBags(), c.Threads();
    var g := GlobalBag(c, heap, thread, bag);
    SizesFactor(c);
    DivModUnique(g, n, heap * t + thread, bag);
    GlobalBagSplit(c, heap, thread, bag);
    DigitsBound(thread, bag, t, n);
    DivModUnique(g, n * t, heap, thread * n + bag);
  }

  lemma ThreadDigit(c: Config, thread: nat, bag: nat, o: nat)
    requires thread < c.Threads() && bag < c.NumBags() && o < c.BagSize()
    ensures var low := GlobalBag(c, 0, thread, bag) * c.BagSize() + o;
      low < c.HeapSize() && Shr(low, c.ThreadShiftBits()) == thread
  {
    hide GlobalBag;
    var n, t, b := c.NumBags(), c.Threads(), c.BagSize();
    var low := GlobalBag(c, 0, thread, bag) * b + o;
    SizesFactor(c);
    GlobalBagSplit(c, 0, thread, bag);
    GlobalBagDigits(c, 0, thread, bag);
    DigitsBound(GlobalBag(c, 0, thread, bag), o, n * t, b);
    DigitsBound(bag, o, n, b);
    MulDistrib(thread * n, bag, b);
    MulAssoc(thread, n, b);
    DivModUnique(low, n * b, thread, bag * b + o);
  }

  /** Decoding an offset inside a bag recovers heap, thread and bag. */
  lemma OffsetDigits(c: Config, heap: nat, thread: nat, bag: nat, o: nat)
    requires thread < c.Threads() && bag < c.NumBags() && o < c.BagSize()
    ensures var addr := BagStart(c, heap, thread, bag) + o;
      && addr >= c.heapBegin
      && Mask(addr - c.heapBegin, c.bagBits) == o
      && HeapOfAddr(c, addr) == heap
      && ThreadOfAddr(c, addr) == thread
      && BagOfAddr(c, addr) == bag
  {
    var g := GlobalBag(c, heap, thread, bag);
    var offset := g * c.BagSize() + o;
    DivModUnique(offset, c.BagSize(), g, o);
    GlobalBagDigits(c, heap, thread, bag);
    GlobalBagSplit(c, heap, thread, bag);
    ThreadDigit(c, thread, bag, o);
    DivModUnique(offset, c.HeapSize(), heap, GlobalBag(c, 0, thread, bag) * c.BagSize() + o);
  }

  lemma ShadowDigits(c: Config, l: Loc)
    requires ValidLoc(c, l)
    ensures c.shadowBegin <= ShadowOf(c, l)
    ensures (ShadowOf(c, l) - c.shadowBegin) / ShadowCeil(c) == l.heap
    ensures (ShadowOf(c, l) - c.shadowBegin) % ShadowCeil(c) == StartShadow(c, l.thread, l.bag) + l.idx * SHADOW_INFO
  {
    ShadowCeilBounds(c);
    ObjectIndexBound(c, l.bag, l.idx);
    var inThread := ObjectsBefore(c, l.bag) + l.idx;
    DigitsBound(l.thread, inThread, c.Threads(), ObjectsPerThread(c));
    DivModUnique(ShadowOf(c, l) - c.shadowBegin, ShadowCeil(c), l.heap,
                 (l.thread * ObjectsPerThread(c) + inThread) * SHADOW_INFO);
  }

  /** Decoding the address of a slot finds its own bag, set item and shadow entry. */
  lemma DecodeAddr(c: Config, l: Loc)
    requires ValidLoc(c, l)
    ensures c.heapBegin <= AddrOf(c, l)
    ensures BagOfAddr(c, AddrOf(c, l)) < c.UsableBags()
    ensures GetShadowObjectInfo(c, AddrOf(c, l)) == Object(l.thread, l.bag, l.heap % SET_SIZE, ShadowOf(c, l))
    ensures GetShadowInBag(c, AddrOf(c, l), l.thread, l.bag) == ShadowOf(c, l)
  {
    hide Pow2, NumObjects, BagStart, BagOfAddr, HeapOfAddr, ThreadOfAddr;
    IndexInBag(c, l.bag, l.idx);
    OffsetDigits(c, l.heap, l.thread, l.bag, l.idx * ClassSize(l.bag));
    MulMod(l.idx, ClassSize(l.bag));
  }

  /** An address inside a usable bag is accepted by the decoder exactly when it is a
      multiple of the class size away from the start of the bag. */
  lemma DecodeMisaligned(c: Config, heap: nat, thread: nat, bag: nat, o: nat)
    requires c.Valid() && thread < c.Threads() && bag < c.UsableBags() && o < c.BagSize()
    ensures var addr := BagStart(c, heap, thread, bag) + o;
      && addr >= c.heapBegin && BagOfAddr(c, addr) == bag
      && (GetShadowObjectInfo(c, addr).Misaligned? <==> o % ClassSize(bag) != 0)
  {
    OffsetDigits(c, heap, thread, bag, o);
  }

  /** The shadow entry of a slot translates back to the slot's address. */
  lemma ShadowToAddr(c: Config, l: Loc)
    requires ValidLoc(c, l)
    ensures c.shadowBegin <= ShadowOf(c, l)
    ensures ShadowHeap(c, ShadowOf(c, l)) == l.heap
    ensures ShadowIndex(c, ShadowOf(c, l), l.thread, l.bag) == l.idx
    ensures GetAddrFromShadowInfo(c, ShadowOf(c, l), l.thread, l.bag) == AddrOf(c, l)
  {
    ShadowDigits(c, l);
    MulMod(l.idx, SHADOW_INFO);
    GlobalBagSplit(c, l.heap, l.thread, l.bag);
  }

  /** Distinct slots have distinct shadow entries. */
  lemma ShadowInjective(c: Config, l: Loc, m: Loc)
    requires ValidLoc(c, l) && ValidLoc(c, m)
    requires ShadowOf(c, l) == ShadowOf(c, m)
    ensures l == m
  {
    ShadowDigits(c, l);
    ShadowDigits(c, m);
    ObjectIndexBound(c, l.bag, l.idx);
    ObjectIndexBound(c, m.bag, m.idx);
    var p := ObjectsPerThread(c);
    var i, j := ObjectsBefore(c, l.bag) + l.idx, ObjectsBefore(c, m.bag) + m.idx;
    assert l.thread * p + i == m.thread * p + j;
    DivModUnique(l.thread * p + i, p, l.thread, i);
    DivModUnique(m.thread * p + j, p, m.thread, j);
    if l.bag < m.bag {
      ObjectsBeforeMonotone(c, l.bag + 1, m.bag);
    } else if m.bag < l.bag {
      ObjectsBeforeMonotone(c, m.bag + 1, l.bag);
    }
  }

  // ------------------------------------------------------------ no gaps in the shadow

  /** The bag whose objects have the numbers around `n` in a thread's share. */
  lemma {:induction false} BagOfObject(c: Config, bags: nat, n: nat) returns (bag: nat)
    requires c.Valid() && bags <= c.UsableBags() && n < ObjectsBefore(c, bags)
    ensures bag < bags && ObjectsBefore(c, bag) <= n < ObjectsBefore(c, bag + 1)
    decreases bags
  {
    if n >= ObjectsBefore(c, bags - 1) {
      bag := bags - 1;
    } else {
      bag := BagOfObject(c, bags - 1, n);
    }
  }

  lemma ThreadOfEntry(c: Config, offset: nat) returns (thread: nat, rest: nat)
    requires c.Valid() && offset < ShadowSizePerHeap(c) && offset % SHADOW_INFO == 0
    ensures thread < c.Threads() && rest < ObjectsPerThread(c)
    ensures offset == (thread * ObjectsPerThread(c) + rest) * SHADOW_INFO
  {
    hide ObjectsPerThread, Pow2;
    thread, rest := TwoDigits(offset / SHADOW_INFO, c.Threads(), ObjectsPerThread(c));
  }

  lemma SharesAll(c: Config)
    requires c.Valid()
    ensures ObjectsPerThread(c) == ObjectsBefore(c, c.UsableBags())
  {
  }

  lemma NextObjects(c: Config, bag: nat)
    requires c.Valid() && bag < c.UsableBags()
    ensures ObjectsBefore(c, bag + 1) == ObjectsBefore(c, bag) + NumObjects(c, bag)
  {
  }

  /** The entries of a heap fill its shadow: every multiple of the entry size below the exact
      size is the entry of exactly one slot. */
  lemma EntriesFillShadow(c: Config, heap: nat, offset: nat) returns (l: Loc)
    requires c.Valid() && offset < ShadowSizePerHeap(c) && offset % SHADOW_INFO == 0
    ensures ValidLoc(c, l) && l.heap == heap && ShadowOf(c, l) == c.shadowBegin + heap * ShadowCeil(c) + offset
    ensures forall m :: ValidLoc(c, m) && ShadowOf(c, m) == ShadowOf(c, l) ==> m == l
  {
    hide ShadowCeil, ObjectsPerThread, ObjectsBefore, NumObjects;
    var thread, rest := ThreadOfEntry(c, offset);
    SharesAll(c);
    var bag := BagOfObject(c, c.UsableBags(), rest);
    NextObjects(c, bag);
    l := Loc(heap, thread, bag, rest - ObjectsBefore(c, bag));
    forall m | ValidLoc(c, m) && ShadowOf(c, m) == ShadowOf(c, l) ensures m == l { ShadowInjective(c, m, l); }
  }
}
