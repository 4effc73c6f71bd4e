/** The entry points of `libfreeguard.cpp`: which of the two heaps serves a request, and
    what a client sees of both together. */
module FreeGuards {
  import opened Arithmetic
  import opened Layout
  import opened Slots
  import opened Options
  import opened Threads
  import opened Machine
  import opened Uninterrupted
  import opened Overwrites
  import opened Bibop
  import opened BigHeaps
  import opened Capacity
  import opened HashMaps

  /** `isSmallObject`: the test includes `_heapEnd` itself. */
  predicate IsSmallAddr(c: Config, addr: nat) { c.heapBegin <= addr <= HeapEnd(c) }

  /** A large object is taken for a small one exactly when its mapping begins where the heap
      mapping ends and its size is a whole number of pages. */
  lemma MisroutedExactly(c: Config, addr: nat, o: Mapping)
    requires EndsAtMapping(addr, o) && OutsideHeap(c, o.start, o.pageUpSize)
    ensures IsSmallAddr(c, addr) <==> o.start == HeapEnd(c) && o.size == o.pageUpSize
  {
  }

  /** Such a mapping is possible: a large object of whole pages mapped right behind the heap. */
  lemma MisroutedObject(c: Config, pages: nat)
    requires c.Valid() && pages > 0
    ensures var o := Mapping(HeapEnd(c), pages * PAGE, pages * PAGE);
      EndsAtMapping(HeapEnd(c), o) && OutsideHeap(c, o.start, o.pageUpSize) && IsSmallAddr(c, HeapEnd(c))
  {
    PageBits();
    Pow2Add(c.HeapBits() - PAGE_BITS, PAGE_BITS);
    MulMod(Pow2(c.HeapBits() - PAGE_BITS), PAGE);
    MulAssoc(NUM_HEAPS, Pow2(c.HeapBits() - PAGE_BITS), PAGE);
    MulMod(NUM_HEAPS * Pow2(c.HeapBits() - PAGE_BITS), PAGE);
    SumOfMultiples(c.heapBegin, NUM_HEAPS * c.HeapSize(), PAGE);
    MulMod(pages, PAGE);
  }

  // ------------------------------------------------------------ bytes

  function Bytes(mem: map<nat, int>, start: nat, n: nat): (bs: seq<int>)
    ensures |bs| == n
  {
    seq(n, i requires 0 <= i < n => Byte(mem, start + i))
  }

  lemma BytesElsewhere(mem: map<nat, int>, a: nat, value: int, start: nat, n: nat)
    requires a < start || start + n <= a
    ensures Bytes(mem[a := value], start, n) == Bytes(mem, start, n)
  {
    var mem' := mem[a := value];
    forall i | 0 <= i < n ensures Bytes(mem', start, n)[i] == Bytes(mem, start, n)[i] {
      assert Byte(mem', start + i) == Byte(mem, start + i);
    }
  }

  lemma BytesAt(mem: map<nat, int>, start: nat, n: nat, k: nat, value: int)
    requires k < n
    ensures Bytes(mem[start + k := value], start, n) == Bytes(mem, start, n)[k := value]
  {
    var mem' := mem[start + k := value];
    forall i | 0 <= i < n ensures Bytes(mem', start, n)[i] == Bytes(mem, start, n)[k := value][i] {
      assert Byte(mem', start + i) == if i == k then value else Byte(mem, start + i);
    }
  }

  /** The first `n` bytes have been copied. */
  ghost predicate Copied(dst: seq<int>, src: seq<int>, n: nat) {
    n <= |dst| && n <= |src| && dst[..n] == src[..n]
  }

  ghost predicate Stored(before: seq<int>, after: seq<int>, i: nat, v: int) {
    i < |before| && after == before[i := v]
  }

  lemma PrefixGrows(dst: seq<int>, dst': seq<int>, src: seq<int>, i: nat, v: int)
    requires Copied(dst, src, i) && Stored(dst, dst', i, v) && i < |src| && v == src[i]
    ensures Copied(dst', src, i + 1)
  {
    assert dst'[..i + 1] == dst[..i] + [v];
    assert src[..i + 1] == src[..i] + [src[i]];
  }

  /** Writing inside one slot leaves the bytes of another. */
  lemma SlotWriteElsewhere(c: Config, mem: map<nat, int>, s: Slot, offset: nat, value: int, r: Slot)
    requires ValidItem(c, s.item) && ValidItem(c, r.item) && r != s && offset < ClassSize(s.item.bag)
    ensures Bytes(mem[SlotAddr(c, s) + offset := value], UserAddr(c, r), ClassSize(r.item.bag) - 1)
      == Bytes(mem, UserAddr(c, r), ClassSize(r.item.bag) - 1)
  {
    SlotsDisjoint(c, s, r);
    BytesElsewhere(mem, SlotAddr(c, s) + offset, value, UserAddr(c, r), ClassSize(r.item.bag) - 1);
  }

  /** What an allocation changes. */
  lemma AllocationChanges(c: Config, m: System, t: Tid, it: Item, useBump: bool, low: bool)
    requires ValidItem(c, it)
    ensures var s := MallocSlot(m.heap, it, useBump);
      var m' := At(m, t, Idle, map[], MallocHeap(c, m.heap, it, useBump, low), m.live + {s});
      && m'.live == m.live + {s} && m'.threads == m.threads && PCOf(m', t).Idle?
      && m'.heap.mem == m.heap.mem[CanaryAddr(c, s) := CANARY_SENTINEL]
  {
  }

  /** The allocation has to take a new slot. */
  predicate MustBump(h: Heap, it: Item, useBump: bool) { useBump || !ListOf(h, it).next.To? }

  /** The slots the bump pointer passes without guarding them are those it hands out. */
  lemma MallocAllocates(c: Config, h: Heap, it: Item, useBump: bool, low: bool, r: Slot)
    requires WasAllocated(MallocHeap(c, h, it, useBump, low), r)
    ensures WasAllocated(h, r) || (MustBump(h, it, useBump) && r == MallocSlot(h, it, useBump))
  {
    if MustBump(h, it, useBump) {
      var hi := AdvanceShape(c, h, it, low);
    }
  }

  /** Mapping or unmapping elsewhere leaves the bytes of a large object. */
  lemma MappingElsewhere(mem: map<nat, int>, addr: nat, o: Mapping, start: nat, len: nat)
    requires EndsAtMapping(addr, o) && Disjoint(start, len, o.start, o.pageUpSize)
    ensures Bytes(Outside(mem, start, len), addr, o.size) == Bytes(mem, addr, o.size)
  {
    var mem' := Outside(mem, start, len);
    forall i | 0 <= i < o.size ensures Bytes(mem', addr, o.size)[i] == Bytes(mem, addr, o.size)[i] {
      assert Byte(mem', addr + i) == Byte(mem, addr + i);
    }
  }

  lemma LiveAreValid(c: Config, m: System)
    requires Good(c, m)
    ensures forall s <- m.live :: ValidItem(c, s.item) && WasAllocated(m.heap, s)
  {
    var P := PlacesOf(c, m);
    forall s <- m.live ensures ValidItem(c, s.item) && WasAllocated(m.heap, s) {
      assert PlaceOf(P, s) == Live;
    }
  }

  lemma SameStart(c: Config, s: Slot, r: Slot)
    requires ValidItem(c, s.item) && ValidItem(c, r.item) && SlotAddr(c, s) == SlotAddr(c, r)
    ensures s == r
  {
    if r != s { SlotsDisjoint(c, s, r); }
  }

  lemma SlotNotBehind(c: Config, s: Slot, where: Address)
    requires ValidItem(c, s.item) && where.Behind?
    ensures !Names(c, SlotAddr(c, s), where)
  {
    if Names(c, SlotAddr(c, s), where) { NoSlotBehind(c, LocOf(c, s), SlotAddr(c, s), where); }
  }

  /** The address of a slot names that slot only. */
  lemma NamedSlot(c: Config, s: Slot, where: Address)
    requires ValidItem(c, s.item) && Names(c, SlotAddr(c, s), where)
    ensures where == AtSlot(s)
  {
    hide GetShadowObjectInfo, SlotAddr, ShadowOf;
    match where {
      case AtSlot(r) => SameStart(c, s, r);
      case Inside(heap, thread, bag, offset) =>
        DecodeSlot(c, s);
        DecodeMisaligned(c, heap, thread, bag, offset);
      case Behind(_, _, _, _) => SlotNotBehind(c, s, where);
      case Unusable(_, _, _, _) =>
        DecodeSlot(c, s);
        DecodeUnusable(c, SlotAddr(c, s), where);
    }
  }

  lemma MultipleOfPower(x: int, a: nat, b: nat)
    requires a <= b && x % Pow2(b) == 0
    ensures x % Pow2(a) == 0
  {
    Pow2Add(b - a, a);
    MultipleOfFactor(x, Pow2(b), Pow2(b - a), Pow2(a));
  }

  /** A slot is aligned to every power of two up to a page and up to its class size. */
  lemma SlotAligned(c: Config, s: Slot, alignBits: nat)
    requires ValidItem(c, s.item) && alignBits <= PAGE_BITS && Pow2(alignBits) <= ClassSize(s.item.bag)
    ensures SlotAddr(c, s) % Pow2(alignBits) == 0
  {
    var l, p := LocOf(c, s), Pow2(alignBits);
    var start, step := BagStart(c, l.heap, l.thread, l.bag), l.idx * ClassSize(l.bag);
    PageBits();
    BagStartAligned(c, l.heap, l.thread, l.bag);
    MultipleOfPower(start, alignBits, PAGE_BITS);
    if alignBits > MIN_BLOCK_BITS + l.bag { Pow2Strict(MIN_BLOCK_BITS + l.bag, alignBits); }
    MulMod(l.idx, ClassSize(l.bag));
    MultipleOfPower(step, alignBits, MIN_BLOCK_BITS + l.bag);
    SumOfMultiples(start, step, p);
  }

  lemma TwiceResidue(start: nat, alignment: nat)
    requires alignment > 0
    ensures var r := start % alignment; (start + r) % alignment == 0 <==> r == 0 || 2 * r == alignment
  {
    var q, r := start / alignment, start % alignment;
    if r == 0 {
    } else if 2 * r < alignment {
      DivModUnique(start + r, alignment, q, 2 * r);
    } else {
      assert start + r == (q + 1) * alignment + (2 * r - alignment) by { MulDistrib(q, 1, alignment); }
      DivModUnique(start + r, alignment, q + 1, 2 * r - alignment);
    }
  }

  /** What `xxmemalign` makes of an object that ends on a multiple of the alignment. */
  lemma AlignedFromEnd(start: nat, alignment: nat, size: nat)
    requires alignment > 0 && (start + size) % alignment == 0
    ensures var r, q := start % alignment, size % alignment;
      && ((start + r) % alignment == 0 <==> q == 0 || 2 * q == alignment)
      && (r == 0 <==> q == 0)
  {
    TwiceResidue(start, alignment);
    var r, q := start % alignment, size % alignment;
    MulDistrib(start / alignment, size / alignment, alignment);
    if r + q >= alignment {
      MulDistrib(start / alignment + size / alignment, 1, alignment);
      DivModUnique(start + size, alignment, start / alignment + size / alignment + 1, r + q - alignment);
    } else {
      DivModUnique(start + size, alignment, start / alignment + size / alignment, r + q);
    }
  }

  /** A large object of `alignment + size` bytes does: its mapping ends on a page. */
  lemma LargeEndsAligned(addr: nat, start: nat, alignBits: nat, size: nat)
    requires alignBits <= PAGE_BITS && 0 < Pow2(alignBits) + size < SIZE_LIMIT
    requires start % PAGE == 0 && PutAtEnd(addr, start, Pow2(alignBits) + size)
    ensures (addr + size) % Pow2(alignBits) == 0
  {
    hide Pow2, AlignUp;
    var a, n := Pow2(alignBits), Pow2(alignBits) + size;
    PageBits();
    AlignUpFits(n);
    SumOfMultiples(start, AlignUp(n), PAGE);
    MultipleOfPower(addr + n, alignBits, PAGE_BITS);
    MulDistrib((addr + n) / a, -1, a);
    DivModUnique(addr + size, a, (addr + n) / a - 1, 0);
  }

  /** Every slot ever handed out can be reached, and nothing outside the heap is protected. */
  ghost predicate AllPlaced(c: Config, h: Heap, guards: set<(int, int)>) {
    && (forall s: Slot :: ValidItem(c, s.item) && WasAllocated(h, s) ==> Reachable(c, s))
    && (forall g <- guards :: InsideHeap(c, g))
  }

  /** There is a free slot, or the next new one can be reached and the bump pointer moves on
      from there without protecting anything outside the heap. */
  ghost predicate Room(c: Config, h: Heap, it: Item, useBump: bool, low: bool)
    requires ValidItem(c, it)
  {
    MustBump(h, it, useBump) ==> Reachable(c, Slot(it, Pos(h, it))) && StaysInside(c, Slot(it, Pos(h, it)), low)
  }

  lemma BumpAllocates(c: Config, h: Heap, it: Item, useBump: bool, low: bool)
    requires MustBump(h, it, useBump) && Slot(it, Pos(h, it)) !in h.skipped
    ensures WasAllocated(MallocHeap(c, h, it, useBump, low), Slot(it, Pos(h, it)))
  {
    var hi := AdvanceShape(c, h, it, low);
  }

  lemma ReachableInHeaps(c: Config, s: Slot)
    requires Reachable(c, s)
    ensures InHeaps(c, s)
  {
  }

  /** An allocation keeps everything in place exactly when there is room for it. */
  lemma AllocationPlacedExactly(c: Config, h: Heap, guards: set<(int, int)>, it: Item, useBump: bool, low: bool)
    requires ValidItem(c, it) && AllPlaced(c, h, guards) && Slot(it, Pos(h, it)) !in h.skipped
    ensures AllPlaced(c, MallocHeap(c, h, it, useBump, low), guards + NewGuards(c, h, it, useBump, low))
      <==> Room(c, h, it, useBump, low)
  {
    hide Reachable, InHeaps, MallocHeap, AdvanceSlot, AdvanceGuards, InsideHeap, WasAllocated, StaysInside;
    var h', s := MallocHeap(c, h, it, useBump, low), Slot(it, Pos(h, it));
    if MustBump(h, it, useBump) {
      BumpAllocates(c, h, it, useBump, low);
      if Reachable(c, s) {
        ReachableInHeaps(c, s);
        AdvanceInMappingExactly(c, s, low);
      }
    }
    if Room(c, h, it, useBump, low) {
      forall r: Slot | ValidItem(c, r.item) && WasAllocated(h', r) ensures Reachable(c, r) {
        MallocAllocates(c, h, it, useBump, low, r);
      }
    }
  }

  /** The canary of one slot is in no other's usable part, nor in its own. */
  lemma SealSpares(c: Config, mem: map<nat, int>, s: Slot)
    requires ValidItem(c, s.item)
    ensures forall r: Slot :: ValidItem(c, r.item) ==>
      Bytes(mem[CanaryAddr(c, s) := CANARY_SENTINEL], UserAddr(c, r), ClassSize(r.item.bag) - 1)
      == Bytes(mem, UserAddr(c, r), ClassSize(r.item.bag) - 1)
  {
    forall r: Slot | ValidItem(c, r.item)
      ensures Bytes(mem[CanaryAddr(c, s) := CANARY_SENTINEL], UserAddr(c, r), ClassSize(r.item.bag) - 1)
        == Bytes(mem, UserAddr(c, r), ClassSize(r.item.bag) - 1)
    {
      if r == s {
        BytesElsewhere(mem, CanaryAddr(c, s), CANARY_SENTINEL, UserAddr(c, r), ClassSize(r.item.bag) - 1);
      } else {
        SlotWriteElsewhere(c, mem, s, ClassSize(s.item.bag) - 1, CANARY_SENTINEL, r);
      }
    }
  }

  /** A byte stored in one slot is in that slot only. */
  lemma StoreSpares(c: Config, mem: map<nat, int>, s: Slot, i: nat, v: int)
    requires ValidItem(c, s.item) && i + 1 < ClassSize(s.item.bag)
    ensures var mem' := mem[UserAddr(c, s) + i := v];
      && Bytes(mem', UserAddr(c, s), ClassSize(s.item.bag) - 1)
         == Bytes(mem, UserAddr(c, s), ClassSize(s.item.bag) - 1)[i := v]
      && forall r: Slot :: ValidItem(c, r.item) && r != s ==>
        Bytes(mem', UserAddr(c, r), ClassSize(r.item.bag) - 1) == Bytes(mem, UserAddr(c, r), ClassSize(r.item.bag) - 1)
  {
    BytesAt(mem, UserAddr(c, s), ClassSize(s.item.bag) - 1, i, v);
    forall r: Slot | ValidItem(c, r.item) && r != s
      ensures Bytes(mem[UserAddr(c, s) + i := v], UserAddr(c, r), ClassSize(r.item.bag) - 1)
        == Bytes(mem, UserAddr(c, r), ClassSize(r.item.bag) - 1)
    {
      SlotWriteElsewhere(c, mem, s, i, v, r);
    }
  }

  lemma BumpSlotFresh(c: Config, m: System, it: Item)
    requires Good(c, m)
    ensures Slot(it, Pos(m.heap, it)) !in m.heap.skipped
  {
    var P := PlacesOf(c, m);
    assert PlaceOf(P, Slot(it, Pos(m.heap, it))) == Nowhere;
  }

  /** A slot that carries the sentinel was handed out at some time. */
  lemma MarkedWasAllocated(c: Config, m: System, s: Slot)
    requires Good(c, m) && !ObjectFree(m.heap, s)
    ensures ValidItem(c, s.item) && WasAllocated(m.heap, s)
  {
    var q, P :| Inv(c, m, q, P);
    SeenSentinel(c, m, s, q, P);
  }

  // ------------------------------------------------------------ objects of both heaps

  datatype Object = Small(s: Slot) | Large(addr: nat)

  /** What `xxfree` does: nothing for a null pointer, free an object, stop the process with
      the small heap's report, go astray with an empty record, read a shadow entry behind the
      shadow mapping, or report an address that neither heap knows. */
  datatype Outcome = Ignored | Done | Refused(report: FreeResult) | Astray | Unmapped | Unknown

  /** How the other entry points end: with a pointer, with null, with the exit for want of a
      mapping, with the exit and report of the small heap, with a division by zero, or with an
      access outside the mappings or the object or from an empty record, from where on nothing
      is promised. */
  datatype CallResult =
    | Returned(ptr: nat)
    | Null
    | NoMapping
    | Stopped(report: FreeResult)
    | DivisionByZero
    | Overrun

  /** `alignment + size`, in `size_t` arithmetic. */
  function Together(alignment: nat, size: nat): nat { (alignment + size) % SIZE_LIMIT }

  lemma TogetherFits(alignment: nat, size: nat)
    ensures Together(alignment, size) < SIZE_LIMIT
    ensures alignment + size < SIZE_LIMIT ==> Together(alignment, size) == alignment + size
  {
  }

  /** A power of two up to a page. */
  ghost predicate DividesPage(alignment: nat) { exists bits: nat :: bits <= PAGE_BITS && Pow2(bits) == alignment }

  function Least(a: nat, b: nat): nat { if a < b then a else b }

  /** The object an address stands for. */
  ghost function ObjectAt(c: Config, ptr: nat, where: Address): Object {
    if IsSmallAddr(c, ptr) && where.AtSlot? then Small(where.s) else Large(ptr)
  }

  ghost predicate SameSlot(o: Object, where: Address) { where.AtSlot? && o == Small(where.s) }

  /** The shadow entry that a free of the address looks at, if it gets that far, is mapped. */
  ghost predicate EntryReadable(c: Config, where: Address)
    requires c.Valid() && (where.Behind? ==> where.bag < c.UsableBags())
  {
    match where
    case Inside(_, _, _, _) => true
    case AtSlot(s) => EntryMapped(c, s)
    case Behind(_, _, _, _) => EntryBehind(c, where) + SHADOW_INFO <= c.shadowBegin + ShadowMappingSize(c)
    case Unusable(_, _, _, _) => EntryUnusable(c, where) + SHADOW_INFO <= c.shadowBegin + ShadowMappingSize(c)
  }

  ghost function FreeOutcome(c: Config, small: set<Slot>, shadow: FreeLists.Cells<nat>, mem: map<nat, int>,
                             large: set<nat>, ptr: nat, where: Address): Outcome
    requires c.Valid() && (where.Behind? ==> where.bag < c.UsableBags())
  {
    if ptr == 0 then Ignored
    else if IsSmallAddr(c, ptr) then
      if !EntryReadable(c, where) then Unmapped
      else
        var report := FreeReport(c, small, shadow, mem, where);
        if report == Freed then Done else if report == FreeResult.Astray then Outcome.Astray else Refused(report)
    else if ptr in large then Done else Unknown
  }

  lemma DoneExactly(c: Config, small: set<Slot>, shadow: FreeLists.Cells<nat>, mem: map<nat, int>, large: set<nat>,
                    ptr: nat, where: Address)
    requires c.Valid() && (where.Behind? ==> where.bag < c.UsableBags())
    ensures FreeOutcome(c, small, shadow, mem, large, ptr, where) == Done
      <==> if IsSmallAddr(c, ptr) && ptr != 0
           then EntryReadable(c, where) && where.AtSlot? && where.s in small && !Damage(c, shadow, mem, where.s)
           else ptr != 0 && ptr in large
  {
    hide EntryReadable;
  }

  /** An object at the end of its mapping starts in the first page and ends on a page. */
  lemma EndsOnPage(start: nat, size: nat)
    requires start % PAGE == 0 && 0 < size < SIZE_LIMIT && AlignUp(size) > 0
    ensures forall addr: nat :: PutAtEnd(addr, start, size) ==>
      start <= addr < start + PAGE && (addr + size) % PAGE == 0
  {
    hide AlignUp;
    AlignUpFits(size);
    SumOfMultiples(start, AlignUp(size), PAGE);
  }

  lemma UintRange()
    ensures Pow2(UINT_BITS) == 0x1_0000_0000
  {
    assert Pow2(8) == 0x100;
    Pow2Add(8, 8);
    Pow2Add(16, 16);
  }

  lemma ClassesGrow(c: Config, bag: nat)
    requires c.Valid() && bag < c.UsableBags()
    ensures ClassSize(bag) < SIZE_LIMIT - 1 && (ClassSize(0) < ClassSize(bag) <==> bag > 0)
  {
    if bag > 0 { Pow2Strict(MIN_BLOCK_BITS, MIN_BLOCK_BITS + bag); }
    Pow2Monotone(MIN_BLOCK_BITS + bag, UINT_BITS);
    UintRange();
  }

  class FreeGuard {
    const bibop: BibopHeap
    const big: BigHeap

    var numLargeObjects: nat

    ghost predicate SmallPlaced()
      reads bibop`m, bibop`guards
    {
      AllPlaced(bibop.c, bibop.m.heap, bibop.guards)
    }

    ghost predicate LargePlaced()
      reads big`live
    {
      forall k <- big.live :: OutsideHeap(bibop.c, big.live[k].start, big.live[k].pageUpSize)
    }

    /** Small objects and guards lie in the heap mapping, large objects outside. */
    ghost predicate Placed()
      reads bibop`m, bibop`guards, big`live
    {
      SmallPlaced() && LargePlaced()
    }

    ghost predicate Valid()
      reads this, bibop, bibop.threadBag, big, big.xmap, big.xmap.nodes, big.xmap.heads, big.objects
    {
      bibop.Valid() && big.Valid() && Placed()
    }

    ghost predicate IsLive(o: Object)
      reads bibop`m, big`live
    {
      match o
      case Small(s) => s in bibop.m.live
      case Large(k) => k in big.live
    }

    /** `heapinitialize`. */
    constructor HeapInitialize(c: Config, hashAddr: (nat, nat) -> nat)
      requires c.Valid()
      ensures Valid() && bibop.c == c && forall o :: !IsLive(o)
    {
      bibop := new BibopHeap.Initialize(c);
      big := new BigHeap.InitBigHeap(hashAddr);
      numLargeObjects := 0;
      new;
      forall g | g in bibop.guards ensures InsideHeap(c, g) { FirstGuardInMapping(c, g); }
    }

    lemma LiveReachable(s: Slot)
      requires bibop.Valid() && SmallPlaced() && s in bibop.m.live
      ensures Reachable(bibop.c, s)
    {
      LiveAreValid(bibop.c, bibop.m);
    }

    /** What the operating system promises about a new mapping of `len` bytes. */
    ghost predicate MayMap(start: nat, len: nat)
      reads big`regions
    {
      FreshMapping(big.regions, start, len) && OutsideHeap(bibop.c, start, len)
    }

    /** Live objects, and slots whether live or not: what has bytes that can be read. */
    ghost predicate HasContent(o: Object)
      reads big`live
    {
      match o
      case Small(s) => InHeaps(bibop.c, s)
      case Large(k) => k in big.live
    }

    ghost function StartOf(o: Object): nat {
      match o
      case Small(s) => UserAddr(bibop.c, s)
      case Large(k) => k
    }

    /** The bytes a client may use. */
    ghost function Usable(o: Object): nat
      reads big`live
    {
      match o
      case Small(s) => ClassSize(s.item.bag) - 1
      case Large(k) => if k in big.live then big.live[k].size else 0
    }

    /** The bytes an object keeps from others: a whole slot, or a whole mapping. */
    ghost function Extent(o: Object): (nat, nat)
      reads big`live
    {
      match o
      case Small(s) => (UserAddr(bibop.c, s), ClassSize(s.item.bag))
      case Large(k) => if k in big.live then Region(big.live[k]) else (k, 0)
    }

    ghost function SmallContent(s: Slot): seq<int>
      reads bibop`mem
    {
      Bytes(bibop.mem, UserAddr(bibop.c, s), ClassSize(s.item.bag) - 1)
    }

    ghost function LargeContent(k: nat): seq<int>
      reads big`mem, big`live
    {
      Bytes(big.mem, k, if k in big.live then big.live[k].size else 0)
    }

    ghost function Content(o: Object): (bytes: seq<int>)
      reads bibop`mem, big`mem, big`live
      ensures |bytes| == Usable(o)
    {
      match o
      case Small(s) => SmallContent(s)
      case Large(k) => LargeContent(k)
    }

    /** The byte at an address, in whichever mapping it lies. */
    ghost function ByteAt(a: nat): int
      reads bibop`mem, big`mem
    {
      Byte(if bibop.c.heapBegin <= a < HeapEnd(bibop.c) then bibop.mem else big.mem, a)
    }

    /** Every protected range lies in the heap mapping, apart from every live object. */
    lemma GuardsSpareObjects(o: Object, g: (int, int))
      requires Valid() && IsLive(o) && g in bibop.guards
      ensures InsideHeap(bibop.c, g) && Disjoint(Extent(o).0, Extent(o).1, g.0, g.1)
    {
      hide BibopHeap.Follows, Good, GoodButBytes;
      if o.Small? {
        bibop.ValidIsOrderly();
        bibop.LiveObjectsApart(o.s);
      } else {
        assert EndsAtMapping(o.addr, big.live[o.addr]);
      }
    }

    /** Reading an object byte by byte reads its content. */
    lemma ReadsContent(o: Object, i: nat)
      requires Valid() && HasContent(o) && i < Usable(o)
      ensures ByteAt(StartOf(o) + i) == Content(o)[i]
    {
      hide BibopHeap.Valid, FreeGuard.SmallPlaced, SlotAddr, LocOf;
      if o.Small? {
        SlotInMapping(bibop.c, o.s);
      } else {
        assert EndsAtMapping(o.addr, big.live[o.addr]);
      }
    }

    method LoadByte(a: nat) returns (v: int)
      ensures v == ByteAt(a)
    {
      var end := bibop.c.heapBegin + NUM_HEAPS * Pow2(bibop.c.HeapBits());
      if bibop.c.heapBegin <= a < end {
        v := Byte(bibop.mem, a);
      } else {
        v := Byte(big.mem, a);
      }
    }

    /** A thread that may call the allocator, with its thread index. */
    ghost predicate Caller(t: Tid, threadIndex: nat)
      reads bibop`m
    {
      && PCOf(bibop.m, t).Idle? && t in bibop.m.threads.running
      && bibop.m.threads.running[t] == threadIndex < bibop.c.Threads()
    }

    /** What happens to small objects alone does not concern the big heap. */
    twostate lemma BigUntouched()
      requires old(big.Valid()) && unchanged(big) && unchanged(big.xmap) && unchanged(big.objects)
      requires unchanged(old(big.xmap.nodes)) && unchanged(old(big.xmap.heads))
      ensures big.Valid()
    {
    }

    /** Threads come and go between calls. */
    ghost method ThreadMoves(e: Event)
      requires Valid() && Enabled(bibop.c, bibop.m, ThreadEvent(e))
      modifies bibop`m
      ensures Valid() && bibop.m == old(bibop.m).(threads := Threads.Apply(old(bibop.m).threads, e))
      ensures forall o :: (IsLive(o) <==> old(IsLive(o))) && Content(o) == old(Content(o))
    {
      hide BibopHeap.Follows, Good, GoodButBytes, BigHeap.Valid, Enabled;
      bibop.ValidIsOrderly();
      bibop.ThreadMoves(e);
      BigUntouched();
    }

    /** There is room for a small request. */
    ghost predicate HasRoom(threadIndex: nat, size: nat, random: nat, low: bool)
      requires bibop.c.Valid() && size < SIZE_LIMIT && !IsLarge(bibop.c, size) && threadIndex < bibop.c.Threads()
      reads bibop`m
    {
      BagForFits(bibop.c, size);
      var it := Item(threadIndex, BagFor(size), random % SET_SIZE);
      Room(bibop.c, bibop.m.heap, it, random % RANDOMIZER == 0, low)
    }

    lemma SameMemory()
      requires bibop.Valid()
      ensures bibop.mem == bibop.m.heap.mem
    {
    }

    /** `allocateSmallObject`, and what it means for the other small objects: afterwards
        everything is in place exactly when there was room. */
    method AllocateSmall(t: Tid, threadIndex: nat, size: nat, random: nat, low: bool) returns (ptr: nat, ghost s: Slot)
      requires bibop.Valid() && SmallPlaced() && Caller(t, threadIndex) && size < SIZE_LIMIT && !IsLarge(bibop.c, size)
      modifies bibop, bibop.threadBag
      ensures bibop.Valid() && (SmallPlaced() <==> old(HasRoom(threadIndex, size, random, low)))
      ensures s.item.thread == threadIndex && s.item.setItem == random % SET_SIZE && ptr == UserAddr(bibop.c, s)
      ensures s !in old(bibop.m.live) && bibop.m.live == old(bibop.m.live) + {s} && Caller(t, threadIndex)
      ensures ValidItem(bibop.c, s.item) && s.item.bag == BagFor(size)
      ensures forall r :: InHeaps(bibop.c, r) ==> SmallContent(r) == old(SmallContent(r))
    {
      hide AdvanceSlot, Reachable, MallocHeap, NewGuards, InsideHeap, BibopHeap.Follows, LocOf, BagFor, WasAllocated;
      hide AllPlaced, Room;
      BagForFits(bibop.c, size);
      ghost var c, m, useBump := bibop.c, bibop.m, random % RANDOMIZER == 0;
      ghost var it := Item(threadIndex, BagFor(size), random % SET_SIZE);
      BumpSlotFresh(c, m, it);
      AllocationPlacedExactly(c, m.heap, bibop.guards, it, useBump, low);
      SameMemory();
      bibop.ValidIsOrderly();
      ptr, s := bibop.AllocateSmallObject(t, threadIndex, size, random, low);
      AllocationChanges(c, m, t, it, useBump, low);
      SameMemory();
      SealSpares(c, m.heap.mem, s);
    }

    lemma SizeOfClass(size: nat)
      requires bibop.c.Valid() && size < SIZE_LIMIT && !IsLarge(bibop.c, size)
      ensures BagFor(size) >= 0 && (size + 1 < SIZE_LIMIT ==> size + 1 <= ClassSize(BagFor(size)))
      ensures size + 1 == SIZE_LIMIT ==> BagFor(size) == 0
    {
      BagForFits(bibop.c, size);
      LeastClass();
    }

    method MallocSmall(t: Tid, threadIndex: nat, size: nat, random: nat, low: bool) returns (ptr: nat, ghost s: Slot)
      requires Valid() && Caller(t, threadIndex) && size < SIZE_LIMIT && !IsLarge(bibop.c, size)
      requires HasRoom(threadIndex, size, random, low)
      modifies bibop, bibop.threadBag
      ensures ValidItem(bibop.c, s.item)
      ensures Valid() && s.item.thread == threadIndex && s.item.setItem == random % SET_SIZE
      ensures ptr == UserAddr(bibop.c, s)
      ensures forall bag: nat :: bag < s.item.bag ==> ClassSize(bag) < size + 1
      ensures size + 1 < SIZE_LIMIT ==> size <= Usable(Small(s))
      ensures size + 1 == SIZE_LIMIT ==> Usable(Small(s)) + 1 == ClassSize(0)
      ensures s !in old(bibop.m.live) && Caller(t, threadIndex)
      ensures forall o :: IsLive(o) <==> old(IsLive(o)) || o == Small(s)
      ensures forall o :: old(HasContent(o)) ==> Content(o) == old(Content(o))
    {
      hide BibopHeap.Valid, BigHeap.Valid, FreeGuard.SmallPlaced, InHeaps;
      ptr, s := AllocateSmall(t, threadIndex, size, random, low);
      SizeOfClass(size);
      forall bag: nat | bag < s.item.bag ensures ClassSize(bag) < size + 1 { NoSmallerClass(bibop.c, size, bag); }
      BigUntouched();
    }

    /** `allocateAtBigHeap`, and what it means for the other large objects. */
    method AllocateLarge(size: nat, mapped: Option<nat>) returns (ptr: Option<nat>)
      requires big.Valid() && LargePlaced() && 0 < size < SIZE_LIMIT
      requires mapped.Some? ==> MayMap(mapped.value, AlignUp(size))
      modifies big, big.xmap, big.xmap.nodes, big.xmap.heads
      ensures big.Valid() && LargePlaced() && big.xmap.heads == old(big.xmap.heads)
      ensures fresh(big.xmap.nodes - old(big.xmap.nodes))
      ensures ptr.Some? <==> mapped.Some?
      ensures ptr.None? ==> big.live == old(big.live)
      ensures ptr.Some? ==> ptr.value !in old(big.live) && PutAtEnd(ptr.value, mapped.value, size)
      ensures ptr.Some? ==> big.live == old(big.live)[ptr.value := Mapping(mapped.value, size, AlignUp(size))]
      ensures forall k <- old(big.live) :: LargeContent(k) == old(LargeContent(k))
    {
      hide HashMap.Valid, TableMatches, BigHeap.StatusMatches;
      ghost var mem, live := big.mem, big.live;
      ptr := big.AllocateAtBigHeap(size, mapped);
      forall k | k in live ensures LargeContent(k) == old(LargeContent(k)) {
        if mapped.Some? {
          assert Region(live[k]) in old(big.regions);
          MappingElsewhere(mem, k, live[k], mapped.value, AlignUp(size));
        }
      }
    }

    /** What happens to large objects alone does not concern the small heap. */
    twostate lemma BibopUntouched()
      requires old(bibop.Valid()) && unchanged(bibop) && unchanged(bibop.threadBag)
      ensures bibop.Valid()
    {
    }

    method MallocLarge(size: nat, mapped: Option<nat>) returns (ptr: Option<nat>)
      requires Valid() && 0 < size < SIZE_LIMIT
      requires mapped.Some? ==> MayMap(mapped.value, AlignUp(size))
      modifies this`numLargeObjects, big, big.xmap, big.xmap.nodes, big.xmap.heads
      ensures Valid() && big.xmap.heads == old(big.xmap.heads)
      ensures fresh(big.xmap.nodes - old(big.xmap.nodes))
      ensures ptr.Some? <==> mapped.Some?
      ensures ptr.Some? ==> ptr.value !in old(big.live) && Usable(Large(ptr.value)) == size
      ensures ptr.Some? ==> PutAtEnd(ptr.value, mapped.value, size)
      ensures ptr.Some? ==> mapped.value <= ptr.value < mapped.value + PAGE && (ptr.value + size) % PAGE == 0
      ensures numLargeObjects == old(numLargeObjects) + 1
      ensures forall o :: IsLive(o) <==> old(IsLive(o)) || (ptr.Some? && o == Large(ptr.value))
      ensures forall o :: old(HasContent(o)) ==> Content(o) == old(Content(o))
    {
      hide BibopHeap.Valid, BigHeap.Valid, FreeGuard.SmallPlaced, InHeaps;
      numLargeObjects := numLargeObjects + 1;
      ptr := AllocateLarge(size, mapped);
      if mapped.Some? { EndsOnPage(mapped.value, size); }
      BibopUntouched();
    }

    lemma WhichHeap(size: nat)
      requires Valid() && size < SIZE_LIMIT
      ensures IsLarge(bibop.c, size) <==> ClassSize(bibop.c.UsableBags() - 1) < size + 1 < SIZE_LIMIT
    {
      LargeExactly(bibop.c, size);
    }

    /** `IF_CANARY_CONDITION`. */
    method IsLargeRequest(size: nat) returns (large: bool)
      ensures large <==> IsLarge(bibop.c, size)
      ensures large ==> 0 < size && size + 1 != SIZE_LIMIT
    {
      large := (size + 1) % SIZE_LIMIT > Pow2(bibop.c.largeBits);
    }

    /** `xxmalloc`. The request is served by one heap or the other; the new object was not
        live, is large enough (unless the request wraps `size_t`), and every other object
        keeps its bytes. `mapped` is the answer of `mmap`; `fits` is what the hardware finds
        when a small request touches memory: without room it leaves the mappings. */
    method XxMalloc(t: Tid, threadIndex: nat, size: nat, random: nat, low: bool, mapped: Option<nat>, fits: bool)
        returns (r: CallResult, ghost got: Object)
      requires Valid() && Caller(t, threadIndex) && size < SIZE_LIMIT
      requires !IsLarge(bibop.c, size) ==> (fits <==> HasRoom(threadIndex, size, random, low))
      requires IsLarge(bibop.c, size) && mapped.Some? ==> MayMap(mapped.value, AlignUp(size))
      modifies this`numLargeObjects, bibop, bibop.threadBag, big, big.xmap, big.xmap.nodes, big.xmap.heads
      ensures Valid() && Caller(t, threadIndex) && big.xmap.heads == old(big.xmap.heads)
      ensures fresh(big.xmap.nodes - old(big.xmap.nodes))
      ensures r.Returned? || r.NoMapping? || r.Overrun?
      ensures r.NoMapping? <==> IsLarge(bibop.c, size) && mapped.None?
      ensures r.Overrun? <==> !IsLarge(bibop.c, size) && !fits
      ensures r.Returned? ==> !old(IsLive(got)) && r.ptr == StartOf(got) && (got.Large? <==> IsLarge(bibop.c, size))
      ensures r.Returned? && size + 1 < SIZE_LIMIT ==> size <= Usable(got)
      ensures r.Returned? && size + 1 == SIZE_LIMIT ==> Usable(got) + 1 == ClassSize(0)
      ensures r.Returned? && got.Large? ==> PutAtEnd(r.ptr, mapped.value, size)
      // which heap, and where in it
      ensures r.Returned? ==>
        (got.Small? <==> size + 1 <= ClassSize(bibop.c.UsableBags() - 1) || size + 1 == SIZE_LIMIT)
      ensures r.NoMapping? <==> ClassSize(bibop.c.UsableBags() - 1) < size + 1 < SIZE_LIMIT && mapped.None?
      ensures r.Returned? && got.Small? ==>
        && got.s.item.thread == threadIndex && got.s.item.setItem == random % SET_SIZE
        && forall bag: nat :: bag < got.s.item.bag ==> ClassSize(bag) < size + 1
      ensures r.Returned? && got.Large? ==>
        Usable(got) == size && mapped.value <= r.ptr < mapped.value + PAGE && (r.ptr + size) % PAGE == 0
      ensures numLargeObjects == old(numLargeObjects)
        + if ClassSize(bibop.c.UsableBags() - 1) < size + 1 < SIZE_LIMIT then 1 else 0
      // what else changes
      ensures forall o :: IsLive(o) <==> old(IsLive(o)) || (r.Returned? && o == got)
      ensures forall o :: old(HasContent(o)) ==> Content(o) == old(Content(o))
    {
      hide FreeGuard.Valid, FreeGuard.Content, InHeaps;
      got := Large(0);
      WhichHeap(size);
      var large := IsLargeRequest(size);
      if large {
        var p := MallocLarge(size, mapped);
        if p.None? {
          return NoMapping, got;
        }
        r, got := Returned(p.value), Large(p.value);
      } else if fits {
        var p, s := MallocSmall(t, threadIndex, size, random, low);
        r, got := Returned(p), Small(s);
      } else {
        r := Overrun;
      }
    }

    /** `where` names the address, if it lies in the heap mapping. */
    ghost predicate Named(ptr: nat, where: Address) {
      && bibop.c.Valid() && (where.Behind? ==> where.bag < bibop.c.UsableBags())
      && (ptr != 0 && IsSmallAddr(bibop.c, ptr) ==> Names(bibop.c, ptr, where))
    }

    /** No other thread is freeing the object there. */
    ghost predicate MayFree(t: Tid, ptr: nat, where: Address)
      reads bibop`m
    {
      && Named(ptr, where)
      && (ptr != 0 && IsSmallAddr(bibop.c, ptr) && where.AtSlot? ==>
        Enabled(bibop.c, bibop.m, CallFree(t, where.s)))
    }

    /** `freeSmallObject`, and what it means for the small objects. */
    method FreeSmall(t: Tid, ptr: nat, ghost where: Address) returns (r: FreeResult)
      requires bibop.Valid() && SmallPlaced() && Names(bibop.c, ptr, where)
      requires where.AtSlot? ==> Enabled(bibop.c, bibop.m, CallFree(t, where.s))
      requires EntryReadable(bibop.c, where)
      modifies bibop, bibop.threadBag
      ensures bibop.Valid() && SmallPlaced() && bibop.mem == old(bibop.mem) && bibop.m.threads == old(bibop.m.threads)
      ensures r == FreeReport(bibop.c, old(bibop.m.live), old(bibop.shadow), bibop.mem, where)
      ensures r != Freed ==> bibop.shadow == old(bibop.shadow)
      ensures bibop.m.live == if r == Freed then old(bibop.m.live) - {where.s} else old(bibop.m.live)
      ensures forall u :: u != t ==> PCOf(bibop.m, u) == old(PCOf(bibop.m, u))
      ensures old(PCOf(bibop.m, t)).Idle? ==> PCOf(bibop.m, t).Idle?
    {
      hide Good, Quiet, LinksEncoded, GuardsFollow, Reachable, InsideHeap, EntryMapped, GoodButBytes, Damage;
      hide SlotDecided, RecordFollows, BytesInSlots, FreeReport;
      ghost var h := bibop.m.heap;
      bibop.ValidIsOrderly();
      r := bibop.FreeSmallObject(t, ptr, where);
      assert forall s :: WasAllocated(bibop.m.heap, s) <==> WasAllocated(h, s) by {
        assert bibop.m.heap.pos == h.pos && bibop.m.heap.skipped == h.skipped;
      }
    }

    /** The canary walk of a free stays in the shadow mapping, and in the heap mapping where
        it reads a canary. */
    lemma WalkStaysMapped(s: Slot, n: Slot)
      requires Valid() && s in bibop.m.live && n in Neighbours(s)
      ensures EntryMapped(bibop.c, n)
      ensures !ObjectFree(bibop.m.heap, n) ==> InHeaps(bibop.c, n)
    {
      hide BibopHeap.Follows;
      LiveReachable(s);
      if n.k < s.k { EntriesBelow(bibop.c, s, n); }
      if !ObjectFree(bibop.m.heap, n) {
        MarkedWasAllocated(bibop.c, bibop.m, n);
      }
    }

    /** `deallocateToBigHeap`, and what it means for the other large objects. */
    method FreeLarge(ptr: nat) returns (freed: bool)
      requires big.Valid() && LargePlaced()
      modifies big, big.xmap, big.xmap.nodes, big.xmap.heads
      ensures big.Valid() && LargePlaced()
      ensures big.xmap.nodes == old(big.xmap.nodes) && big.xmap.heads == old(big.xmap.heads)
      ensures (freed <==> ptr in old(big.live)) && big.live == old(big.live) - {ptr}
      ensures forall k <- big.live :: LargeContent(k) == old(LargeContent(k))
    {
      hide HashMap.Valid, TableMatches, BigHeap.StatusMatches;
      ghost var mem, live := big.mem, big.live;
      freed := big.DeallocateToBigHeap(ptr);
      assert ptr !in live ==> big.live - {ptr} == big.live;
      forall k | k in big.live ensures LargeContent(k) == old(LargeContent(k)) {
        if freed {
          assert Apart(live[k], live[ptr]);
          MappingElsewhere(mem, k, live[k], live[ptr].start, live[ptr].pageUpSize);
        }
      }
    }

    /** Whether the small heap gets past reading the shadow entry of an address: misaligned
        addresses are refused before. */
    method ReadsEntry(ptr: nat, ghost where: Address) returns (readable: bool)
      requires bibop.c.Valid() && Names(bibop.c, ptr, where)
      ensures readable <==> EntryReadable(bibop.c, where)
    {
      var info := bibop.Decode(ptr, where);
      readable := info.Misaligned? || info.shadow + SHADOW_INFO <= bibop.c.shadowBegin + ShadowMappingSize(bibop.c);
    }

    lemma ReachableEntry(s: Slot)
      requires bibop.Valid() && SmallPlaced() && s in bibop.m.live
      ensures EntryMapped(bibop.c, s)
    {
      LiveReachable(s);
    }

    /** The small-object path of `xxfree`. */
    method SmallPath(t: Tid, ptr: nat, ghost where: Address) returns (r: Outcome)
      requires Valid() && MayFree(t, ptr, where) && ptr != 0 && IsSmallAddr(bibop.c, ptr)
      modifies bibop, bibop.threadBag
      ensures Valid()
      ensures r == old(FreeOutcome(bibop.c, bibop.m.live, bibop.shadow, bibop.mem, big.live.Keys, ptr, where))
      ensures !r.Done? ==>
        bibop.shadow == old(bibop.shadow) && bibop.mem == old(bibop.mem) && bibop.m.live == old(bibop.m.live)
      ensures forall o :: IsLive(o) <==> old(IsLive(o)) && !(r.Done? && o == ObjectAt(bibop.c, ptr, where))
      ensures forall o :: old(HasContent(o)) && HasContent(o) ==> Content(o) == old(Content(o))
    {
      hide BibopHeap.Valid, BigHeap.Valid, FreeGuard.SmallPlaced, EntryMapped, InHeaps, Reachable, Enabled;
      if where.AtSlot? && where.s in bibop.m.live { ReachableEntry(where.s); }
      var readable := ReadsEntry(ptr, where);
      if !readable {
        return Unmapped;
      }
      var f := FreeSmall(t, ptr, where);
      BigUntouched();
      r := if f == Freed then Done else if f == FreeResult.Astray then Outcome.Astray else Refused(f);
    }

    /** The large-object path of `xxfree`. */
    method LargePath(ptr: nat) returns (r: Outcome)
      requires Valid()
      modifies big, big.xmap, big.xmap.nodes, big.xmap.heads
      ensures Valid() && big.xmap.nodes == old(big.xmap.nodes) && big.xmap.heads == old(big.xmap.heads)
      ensures r == if ptr in old(big.live) then Done else Unknown
      ensures forall o :: IsLive(o) <==> old(IsLive(o)) && o != Large(ptr)
      ensures forall o :: old(HasContent(o)) && HasContent(o) ==> Content(o) == old(Content(o))
    {
      hide BibopHeap.Valid, BigHeap.Valid, FreeGuard.SmallPlaced, InHeaps;
      var freed := FreeLarge(ptr);
      BibopUntouched();
      r := if freed then Done else Unknown;
    }

    /** The size `xxrealloc` looks up. That of a class whether the slot is live or not; none in
        an unusable bag, where it is -1, and none for a large address that is no live object's. */
    ghost function SizeAt(ptr: nat, where: Address): Option<nat>
      reads big`live
    {
      if IsSmallAddr(bibop.c, ptr) then
        match where
        case AtSlot(s) => Some(Usable(Small(s)))
        case Behind(_, _, bag, _) => Some(ClassSize(bag) - 1)
        case _ => None
      else if ptr in big.live then Some(Usable(Large(ptr)))
      else None
    }

    /** An address in the heap mapping, not misaligned, at which no live small object starts. */
    ghost predicate Forgotten(ptr: nat, where: Address)
      reads bibop`m
    {
      ptr != 0 && IsSmallAddr(bibop.c, ptr) && !where.Inside? && !(where.AtSlot? && where.s in bibop.m.live)
    }

    /** The free at the end of `xxrealloc`: of an object that is live, or of a forgotten one. */
    lemma FreeAtEnd(t: Tid, ptr: nat, where: Address)
      requires Valid() && MayFree(t, ptr, where) && ptr != 0 && SizeAt(ptr, where).Some?
      ensures var r := FreeOutcome(bibop.c, bibop.m.live, bibop.shadow, bibop.mem, big.live.Keys, ptr, where);
        if !Forgotten(ptr, where) then r == Done
        else if !EntryReadable(bibop.c, where) then r == Unmapped
        else r == Refused(FreeReport(bibop.c, bibop.m.live, bibop.shadow, bibop.mem, where))
    {
      hide BibopHeap.Follows, FreeGuard.SmallPlaced, EntryMapped, Good, Quiet, BigHeap.Valid, Enabled, Names;
      if where.AtSlot? && where.s in bibop.m.live {
        ReachableEntry(where.s);
        bibop.Undamaged(where.s);
      }
    }

    /** `xxfree`. Of the addresses that clients may pass, it frees exactly the live objects,
        except for a large one at `_heapEnd`, which it takes for a small one. */
    method XxFree(t: Tid, ptr: nat, ghost where: Address) returns (r: Outcome)
      requires Valid() && MayFree(t, ptr, where)
      modifies bibop, bibop.threadBag, big, big.xmap, big.xmap.nodes, big.xmap.heads
      ensures Valid() && big.xmap.nodes == old(big.xmap.nodes) && big.xmap.heads == old(big.xmap.heads)
      ensures r == old(FreeOutcome(bibop.c, bibop.m.live, bibop.shadow, bibop.mem, big.live.Keys, ptr, where))
      ensures ptr != 0 && old(IsLive(ObjectAt(bibop.c, ptr, where))) && !(IsSmallAddr(bibop.c, ptr) && !where.AtSlot?)
        ==> r == Done
      ensures ptr != 0 && !IsSmallAddr(bibop.c, ptr) && !old(IsLive(Large(ptr))) ==> r == Unknown
      ensures !r.Done? ==>
        bibop.shadow == old(bibop.shadow) && bibop.mem == old(bibop.mem) && bibop.m.live == old(bibop.m.live)
      ensures forall o :: IsLive(o) <==> old(IsLive(o)) && !(r.Done? && o == ObjectAt(bibop.c, ptr, where))
      ensures forall o :: old(HasContent(o)) && HasContent(o) ==> Content(o) == old(Content(o))
    {
      hide FreeGuard.Valid, FreeGuard.Content, InHeaps, EntryMapped;
      if ptr != 0 && SizeAt(ptr, where).Some? { FreeAtEnd(t, ptr, where); }
      if ptr == 0 {
        return Ignored;
      }
      if bibop.c.heapBegin <= ptr <= HeapEnd(bibop.c) {
        r := SmallPath(t, ptr, where);
      } else {
        r := LargePath(ptr);
      }
    }

    lemma LiveInMapping(s: Slot)
      requires bibop.Valid() && SmallPlaced() && s in bibop.m.live
      ensures InHeaps(bibop.c, s)
      ensures bibop.c.heapBegin <= SlotAddr(bibop.c, s)
      ensures SlotAddr(bibop.c, s) < SlotAddr(bibop.c, s) + ClassSize(s.item.bag) <= HeapEnd(bibop.c)
    {
      LiveReachable(s);
      SlotInMapping(bibop.c, s);
    }

    lemma FreesSmall(s: Slot, where: Address)
      requires bibop.Valid() && SmallPlaced() && s in bibop.m.live && Names(bibop.c, UserAddr(bibop.c, s), where)
      ensures where == AtSlot(s) && EntryReadable(bibop.c, where)
      ensures FreeReport(bibop.c, bibop.m.live, bibop.shadow, bibop.mem, where) == Freed
      ensures bibop.c.heapBegin <= UserAddr(bibop.c, s) < HeapEnd(bibop.c)
    {
      hide BibopHeap.Follows, FreeGuard.SmallPlaced, SlotAddr, Names;
      LiveInMapping(s);
      ReachableEntry(s);
      NamedSlot(bibop.c, s, where);
      bibop.Undamaged(s);
    }

    /** Of the addresses of live objects, `xxfree` frees all but `_heapEnd`. */
    lemma FreesExactly(t: Tid, o: Object, where: Address)
      requires Valid() && IsLive(o) && StartOf(o) != 0 && MayFree(t, StartOf(o), where)
      ensures var r := FreeOutcome(bibop.c, bibop.m.live, bibop.shadow, bibop.mem, big.live.Keys, StartOf(o), where);
        r == Done && ObjectAt(bibop.c, StartOf(o), where) == o <==> StartOf(o) != HeapEnd(bibop.c)
    {
      hide BibopHeap.Follows, FreeGuard.SmallPlaced, InHeaps, EntryReadable, Names, FreeOutcome, FreeReport;
      DoneExactly(bibop.c, bibop.m.live, bibop.shadow, bibop.mem, big.live.Keys, StartOf(o), where);
      if o.Small? {
        LiveInMapping(o.s);
        FreesSmall(o.s, where);
        bibop.Undamaged(o.s);
      } else {
        MisroutedExactly(bibop.c, o.addr, big.live[o.addr]);
      }
    }

    /** A byte written to a small object. */
    method StoreSmall(ptr: nat, i: nat, v: int, ghost s: Slot)
      requires bibop.Valid() && SmallPlaced() && s in bibop.m.live && ptr == UserAddr(bibop.c, s)
      requires i + 1 < ClassSize(s.item.bag)
      modifies bibop
      ensures bibop.shadow == old(bibop.shadow)
      ensures bibop.Valid() && SmallPlaced() && bibop.m.live == old(bibop.m.live)
      ensures bibop.m.threads == old(bibop.m.threads) && bibop.m.pc == old(bibop.m.pc)
      ensures bibop.m.heap.pos == old(bibop.m.heap.pos) && bibop.m.heap.skipped == old(bibop.m.heap.skipped)
      ensures SmallContent(s) == old(SmallContent(s))[i := v]
      ensures forall r :: InHeaps(bibop.c, r) && r != s ==> SmallContent(r) == old(SmallContent(r))
    {
      hide Good, Quiet, LinksEncoded, GuardsFollow, Reachable, InsideHeap, SlotAddr, BibopHeap.Follows;
      ghost var mem, c, h := bibop.mem, bibop.c, bibop.m.heap;
      LiveAreValid(c, bibop.m);
      SameMemory();
      bibop.ValidIsOrderly();
      bibop.ClientStore(s, ptr, i, v);
      SameMemory();
      StoreSpares(c, mem, s, i, v);
      assert forall r :: WasAllocated(bibop.m.heap, r) <==> WasAllocated(h, r) by {
        assert bibop.m.heap.pos == h.pos && bibop.m.heap.skipped == h.skipped;
      }
    }

    /** A byte written to a large object. */
    method StoreLarge(ptr: nat, i: nat, v: int)
      requires big.Valid() && ptr in big.live && i < big.live[ptr].size
      modifies big`mem
      ensures big.Valid() && LargeContent(ptr) == old(LargeContent(ptr))[i := v]
      ensures forall k <- big.live :: k != ptr ==> LargeContent(k) == old(LargeContent(k))
    {
      hide HashMap.Valid, TableMatches, BigHeap.StatusMatches;
      ghost var mem, live := big.mem, big.live;
      big.ClientStore(ptr, i, v);
      BytesAt(mem, ptr, live[ptr].size, i, v);
      forall k | k in live && k != ptr ensures LargeContent(k) == old(LargeContent(k)) {
        assert Apart(live[k], live[ptr]) && EndsAtMapping(k, live[k]) && EndsAtMapping(ptr, live[ptr]);
        BytesElsewhere(mem, ptr + i, v, k, live[k].size);
      }
    }

    /** Nothing but bytes has changed since. */
    twostate predicate OnlyBytes()
      reads bibop`m, bibop`shadow, big`live
    {
      && bibop.m.live == old(bibop.m.live) && bibop.shadow == old(bibop.shadow) && big.live == old(big.live)
      && bibop.m.threads == old(bibop.m.threads) && bibop.m.pc == old(bibop.m.pc)
      && bibop.m.heap.pos == old(bibop.m.heap.pos) && bibop.m.heap.skipped == old(bibop.m.heap.skipped)
    }

    /** The start of a live object tells which mapping it lies in. */
    lemma InWhichMapping(o: Object)
      requires Valid() && IsLive(o)
      ensures o.Small? <==> bibop.c.heapBegin <= StartOf(o) < HeapEnd(bibop.c)
    {
      hide BibopHeap.Follows, FreeGuard.SmallPlaced;
      if o.Small? {
        LiveInMapping(o.s);
      } else {
        MisroutedExactly(bibop.c, o.addr, big.live[o.addr]);
      }
    }

    /** A client writes a byte of a live object. */
    method StoreByte(ptr: nat, i: nat, v: int, ghost o: Object)
      requires Valid() && IsLive(o) && ptr == StartOf(o) && i < Usable(o)
      modifies bibop, big`mem
      ensures Valid() && OnlyBytes()
      ensures Stored(old(Content(o)), Content(o), i, v)
      ensures forall p :: p != o && HasContent(p) ==> Content(p) == old(Content(p))
    {
      hide BibopHeap.Valid, BigHeap.Valid, FreeGuard.SmallPlaced, InHeaps;
      InWhichMapping(o);
      if bibop.c.heapBegin <= ptr < HeapEnd(bibop.c) {
        StoreSmall(ptr, i, v, o.s);
        BigUntouched();
      } else {
        StoreLarge(ptr, i, v);
        BibopUntouched();
      }
    }

    /** One byte of it. */
    method CopyByte(to: nat, from: nat, i: nat, ghost dst: Object, ghost src: Option<Object>)
      requires Valid() && IsLive(dst) && to == StartOf(dst) && i < Usable(dst)
      requires src.Some? ==> HasContent(src.value) && dst != src.value && from == StartOf(src.value)
      requires src.Some? ==> i < Usable(src.value) && Copied(Content(dst), Content(src.value), i)
      modifies bibop, big`mem
      ensures Valid() && OnlyBytes()
      ensures src.Some? ==> Copied(Content(dst), old(Content(src.value)), i + 1)
      ensures forall p :: p != dst && HasContent(p) ==> Content(p) == old(Content(p))
    {
      hide FreeGuard.Valid, FreeGuard.Content, Copied, Stored, InHeaps;
      ghost var d := Content(dst);
      if src.Some? { ReadsContent(src.value, i); }
      var v := LoadByte(from + i);
      StoreByte(to, i, v, dst);
      if src.Some? { PrefixGrows(d, Content(dst), old(Content(src.value)), i, v); }
    }

    /** `memcpy` to a live object, from another object or from anywhere. */
    method CopyBytes(to: nat, from: nat, n: nat, ghost dst: Object, ghost src: Option<Object>)
      requires Valid() && IsLive(dst) && to == StartOf(dst) && n <= Usable(dst)
      requires src.Some? ==> HasContent(src.value) && dst != src.value && from == StartOf(src.value)
      requires src.Some? ==> n <= Usable(src.value)
      modifies bibop, big`mem
      ensures Valid() && OnlyBytes()
      ensures src.Some? ==> Copied(Content(dst), old(Content(src.value)), n)
      ensures forall p :: p != dst && HasContent(p) ==> Content(p) == old(Content(p))
    {
      hide FreeGuard.Valid, FreeGuard.Content, InHeaps;
      for i := 0 to n
        invariant Valid() && OnlyBytes()
        invariant src.Some? ==> Copied(Content(dst), old(Content(src.value)), i)
        invariant forall p :: p != dst && HasContent(p) ==> Content(p) == old(Content(p))
      {
        CopyByte(to, from, i, dst, src);
      }
    }

    // ---------------------------------------------------------- realloc

    /** … and no slot was ever handed out there either. */
    ghost predicate Stray(ptr: nat, where: Address)
      reads bibop`m
    {
      Forgotten(ptr, where) && !(where.AtSlot? && WasAllocated(bibop.m.heap, where.s))
    }

    ghost predicate IsMisaligned(ptr: nat, where: Address) {
      ptr != 0 && IsSmallAddr(bibop.c, ptr) && where.Inside?
    }

    /** `xxrealloc` has to find a new object. */
    ghost predicate NeedsNew(ptr: nat, sz: nat, where: Address)
      reads big`live
    {
      ptr == 0 || (SizeAt(ptr, where).Some? && SizeAt(ptr, where).value < sz)
    }

    /** How `xxrealloc` ends otherwise. */
    ghost function AtOnce(ptr: nat, sz: nat, where: Address): CallResult
      requires bibop.c.Valid() && (where.Behind? ==> where.bag < bibop.c.UsableBags())
      reads bibop`m, bibop`shadow, bibop`mem, big`live
    {
      if sz == 0 then
        match FreeOutcome(bibop.c, bibop.m.live, bibop.shadow, bibop.mem, big.live.Keys, ptr, where)
        case Refused(report) => Stopped(report)
        case Astray => Overrun
        case Unmapped => Overrun
        case _ => Null
      else if IsMisaligned(ptr, where) then Stopped(MisalignedFree)
      else if SizeAt(ptr, where).None? then Null
      else Returned(ptr)
    }

    ghost predicate FreesAtOnce(ptr: nat, sz: nat, where: Address)
      requires bibop.c.Valid() && (where.Behind? ==> where.bag < bibop.c.UsableBags())
      reads bibop`m, bibop`shadow, bibop`mem, big`live
    {
      sz == 0 && FreeOutcome(bibop.c, bibop.m.live, bibop.shadow, bibop.mem, big.live.Keys, ptr, where) == Done
    }

    /** The request that wraps `size_t` gets an object of the least class; the bytes of a larger
        one do not fit. */
    ghost predicate CopyOverruns(ptr: nat, sz: nat, where: Address)
      reads big`live
    {
      sz + 1 == SIZE_LIMIT && ptr != 0 && NeedsNew(ptr, sz, where) && ClassSize(0) <= SizeAt(ptr, where).value
    }

    /** For a live slot: exactly when it is of a larger class, of 32 bytes or more. */
    lemma WrapOverruns(s: Slot)
      requires Valid() && s in bibop.m.live && UserAddr(bibop.c, s) != 0
      ensures CopyOverruns(UserAddr(bibop.c, s), SIZE_LIMIT - 1, AtSlot(s)) <==> s.item.bag > 0
    {
      hide BibopHeap.Follows, BigHeap.Valid, SlotAddr, FreeGuard.SmallPlaced;
      LiveInMapping(s);
      ClassesGrow(bibop.c, s.item.bag);
    }

    /** The object at an address, if its bytes can be read there. */
    ghost function SourceAt(ptr: nat, where: Address): Option<Object> {
      if !IsSmallAddr(bibop.c, ptr) then Some(Large(ptr))
      else if where.AtSlot? && InHeaps(bibop.c, where.s) then Some(Small(where.s))
      else None
    }

    /** The sizes `xxrealloc` looks up, in the one heap or the other. */
    method UsableSize(t: Tid, ptr: nat, ghost where: Address) returns (size: Option<nat>)
      requires Valid() && ptr != 0 && MayFree(t, ptr, where) && !IsMisaligned(ptr, where)
      ensures size == SizeAt(ptr, where)
    {
      hide HashMap.Valid, TableMatches, BigHeap.StatusMatches, BibopHeap.Follows, MappingsMatch, Enabled, Good;
      if bibop.c.heapBegin <= ptr <= HeapEnd(bibop.c) {
        var n := bibop.GetObjectSize(ptr, where);
        if where.AtSlot? { ClassesGrow(bibop.c, where.s.item.bag); }
        if where.Behind? { ClassesGrow(bibop.c, where.bag); }
        size := if n == SIZE_LIMIT - 1 then None else Some(n);
      } else {
        var large := big.IsLargeObject(ptr);
        if large {
          size := big.GetObjectSize(ptr);
        } else {
          size := None;
        }
      }
    }

    /** Whether `getObjectSize` refuses the address. */
    method Refuses(t: Tid, ptr: nat, ghost where: Address) returns (refused: bool)
      requires Valid() && ptr != 0 && MayFree(t, ptr, where)
      ensures refused <==> IsMisaligned(ptr, where)
    {
      hide BibopHeap.Valid, BigHeap.Valid, FreeGuard.SmallPlaced, InHeaps, Enabled;
      refused := false;
      if bibop.c.heapBegin <= ptr <= HeapEnd(bibop.c) {
        var info := bibop.Decode(ptr, where);
        refused := info.Misaligned?;
      }
    }

    /** A caller may free what it names. */
    lemma CallerMayFree(t: Tid, threadIndex: nat, ptr: nat, where: Address)
      requires Valid() && Caller(t, threadIndex) && Named(ptr, where)
      ensures MayFree(t, ptr, where)
    {
      hide BibopHeap.Follows, BigHeap.Valid, FreeGuard.Placed;
      forall u | u in bibop.m.pc ensures Freeing(bibop.m.pc[u]) == None { QuietThread(bibop.m, u); }
    }

    lemma AllHaveContent()
      requires Valid()
      ensures forall o :: IsLive(o) ==> HasContent(o)
    {
      hide BibopHeap.Follows, FreeGuard.SmallPlaced, BigHeap.Valid;
      forall o | IsLive(o) ensures HasContent(o) {
        if o.Small? { LiveInMapping(o.s); }
      }
    }

    /** Different objects start at different addresses. */
    lemma StartsDiffer(o: Object, p: Object)
      requires Valid() && HasContent(o) && HasContent(p)
      ensures StartOf(o) == StartOf(p) <==> o == p
    {
      hide BibopHeap.Follows, BibopHeap.Valid, FreeGuard.SmallPlaced;
      if o.Small? { SlotInMapping(bibop.c, o.s); }
      if p.Small? { SlotInMapping(bibop.c, p.s); }
      if o.Small? && p.Small? && o != p { SlotsDisjoint(bibop.c, o.s, p.s); }
      if o.Large? { assert EndsAtMapping(o.addr, big.live[o.addr]); }
      if p.Large? { assert EndsAtMapping(p.addr, big.live[p.addr]); }
    }

    /** The bytes at the address, or the shadow entry it leads to, cannot be read. */
    ghost predicate CannotRead(ptr: nat, faults: bool, got: Object, where: Address)
      requires bibop.c.Valid() && (where.Behind? ==> where.bag < bibop.c.UsableBags())
    {
      (faults && StartOf(got) != ptr) || !EntryReadable(bibop.c, where)
    }

    /** Copy to the new object and free the old one. */
    method Replace(t: Tid, threadIndex: nat, ptr: nat, n: nat, p: nat, ghost got: Object, ghost where: Address)
        returns (r: CallResult)
      requires Valid() && Caller(t, threadIndex) && MayFree(t, ptr, where)
      requires IsLive(got) && p == StartOf(got) && n <= Usable(got)
      requires ptr != 0 && SizeAt(ptr, where) == Some(n)
      modifies bibop, bibop.threadBag, big, big.xmap, big.xmap.nodes, big.xmap.heads
      ensures Valid()
      ensures r == if !old(Forgotten(ptr, where)) then Returned(p)
        else if !EntryReadable(bibop.c, where) then Overrun
        else Stopped(FreeReport(bibop.c, bibop.m.live, bibop.shadow, bibop.mem, where))
      ensures forall o :: IsLive(o) <==> old(IsLive(o)) && !(r.Returned? && o == ObjectAt(bibop.c, ptr, where))
      ensures HasContent(got) ==> Usable(got) == old(Usable(got))
      ensures HasContent(got) && SourceAt(ptr, where).Some? ==>
        Copied(Content(got), old(Content(SourceAt(ptr, where).value)), n)
      ensures forall o :: IsLive(o) && o != got ==> Content(o) == old(Content(o))
    {
      hide FreeGuard.Valid, FreeGuard.Content, InHeaps, EntryReadable;
      ghost var src := SourceAt(ptr, where);
      AllHaveContent();
      if src.Some? { StartsDiffer(got, src.value); }
      if p != ptr {
        CopyBytes(p, ptr, n, got, src);
      }
      AllHaveContent();
      CallerMayFree(t, threadIndex, ptr, where);
      FreeAtEnd(t, ptr, where);
      var outcome := XxFree(t, ptr, where);
      AllHaveContent();
      r := match outcome
        case Refused(report) => Stopped(report)
        case Unmapped => Overrun
        case _ => Returned(p);
    }

    lemma MayFreeNamed(t: Tid, ptr: nat, where: Address)
      requires MayFree(t, ptr, where)
      ensures Named(ptr, where)
      ensures ptr != 0 && IsSmallAddr(bibop.c, ptr) && where.AtSlot? ==> StartOf(Small(where.s)) == ptr
    {
      hide Enabled;
    }

    /** The last lines of `xxrealloc`: a new object, the bytes of the old one, and the old one
        freed. At an address where nothing is live, the process stops in one way or another,
        unless the new object is the slot there: then that is freed at once. */
    method Move(t: Tid, threadIndex: nat, ptr: nat, oldSize: nat, sz: nat, random: nat, low: bool, mapped: Option<nat>,
                fits: bool, faults: bool, ghost where: Address) returns (r: CallResult, ghost got: Object)
      requires Valid() && Caller(t, threadIndex) && oldSize < sz < SIZE_LIMIT
      requires ptr != 0 && MayFree(t, ptr, where) && SizeAt(ptr, where) == Some(oldSize)
      requires !IsLarge(bibop.c, sz) ==> (fits <==> HasRoom(threadIndex, sz, random, low))
      requires IsLarge(bibop.c, sz) && mapped.Some? ==> MayMap(mapped.value, AlignUp(sz))
      requires faults ==> Stray(ptr, where)
      modifies this`numLargeObjects, bibop, bibop.threadBag, big, big.xmap, big.xmap.nodes, big.xmap.heads
      ensures Valid()
      ensures r.NoMapping? <==> IsLarge(bibop.c, sz) && mapped.None?
      ensures r.Overrun? <==>
        (!IsLarge(bibop.c, sz) && !fits) || old(CopyOverruns(ptr, sz, where)) ||
        (!r.NoMapping? && old(Forgotten(ptr, where)) && !SameSlot(got, where) && CannotRead(ptr, faults, got, where))
      ensures !r.NoMapping? && !r.Overrun? ==>
        r == if old(Forgotten(ptr, where)) && !SameSlot(got, where)
             then Stopped(FreeReport(bibop.c, bibop.m.live, bibop.shadow, bibop.mem, where))
             else Returned(StartOf(got))
      ensures r.NoMapping? ==> forall o :: IsLive(o) <==> old(IsLive(o))
      ensures r.Returned? || r.Stopped? ==> !old(IsLive(got)) && (sz + 1 < SIZE_LIMIT ==> sz <= Usable(got))
      ensures r.Returned? && !old(Forgotten(ptr, where)) ==> r.ptr != ptr
      ensures r.Returned? ==>
        forall o :: IsLive(o) <==> (old(IsLive(o)) || o == got) && o != ObjectAt(bibop.c, ptr, where)
      ensures r.Returned? ==> Copied(Content(got), old(Content(ObjectAt(bibop.c, ptr, where))), oldSize)
      ensures r.Stopped? ==> forall o :: IsLive(o) <==> old(IsLive(o)) || o == got
      ensures forall o :: old(IsLive(o)) && IsLive(o) ==> Content(o) == old(Content(o))
    {
      hide FreeGuard.Valid, FreeGuard.Content, InHeaps, MayFree, WasAllocated, EntryReadable, FreeGuard.MayMap;
      hide FreeGuard.HasRoom, FreeGuard.Named, Copied, FreeReport, Pow2;
      MayFreeNamed(t, ptr, where);
      AllHaveContent();
      r, got := XxMalloc(t, threadIndex, sz, random, low, mapped, fits);
      if !r.Returned? {
        return;
      }
      if sz + 1 == SIZE_LIMIT && oldSize >= Pow2(MIN_BLOCK_BITS) {
        r := Overrun;
        return;
      }
      if faults && r.ptr != ptr {
        r := Overrun;
        return;
      }
      AllHaveContent();
      assert SizeAt(ptr, where) == Some(oldSize) by {
        if !IsSmallAddr(bibop.c, ptr) {
          assert old(IsLive(Large(ptr))) && IsLive(Large(ptr));
          assert Content(Large(ptr)) == old(Content(Large(ptr)));
        }
      }
      assert Forgotten(ptr, where) <==> old(Forgotten(ptr, where)) && !SameSlot(got, where) by {
        if where.AtSlot? { assert IsLive(Small(where.s)) <==> old(IsLive(Small(where.s))) || SameSlot(got, where); }
      }
      CallerMayFree(t, threadIndex, ptr, where);
      if !Forgotten(ptr, where) { StartsDiffer(got, ObjectAt(bibop.c, ptr, where)); }
      r := Replace(t, threadIndex, ptr, oldSize, r.ptr, got, where);
      AllHaveContent();
    }

    /** `xxrealloc` without a new object. */
    twostate predicate EndsAtOnce(ptr: nat, sz: nat, where: Address, r: CallResult, got: Object)
      requires Named(ptr, where)
      reads bibop`m, big`live
    {
      && r == old(AtOnce(ptr, sz, where))
      && (r.Returned? ==> got == ObjectAt(bibop.c, ptr, where))
      && forall o :: IsLive(o) <==>
           old(IsLive(o)) && !(old(FreesAtOnce(ptr, sz, where)) && o == ObjectAt(bibop.c, ptr, where))
    }

    /** … and with one. Where no object is live the new one is the same slot, or the free ends
        the process. */
    twostate predicate EndsWithNew(ptr: nat, sz: nat, mapped: Option<nat>, fits: bool, faults: bool, where: Address,
                                   r: CallResult, got: Object)
      requires Named(ptr, where)
      reads bibop`m, bibop`shadow, bibop`mem, big`live
    {
      && (r.NoMapping? <==> IsLarge(bibop.c, sz) && mapped.None?)
      && (r.Overrun? <==>
           (!IsLarge(bibop.c, sz) && !fits) || old(CopyOverruns(ptr, sz, where)) ||
           (!r.NoMapping? && old(Forgotten(ptr, where)) && !SameSlot(got, where)
            && CannotRead(ptr, faults, got, where)))
      && (r.NoMapping? || r.Overrun? || r ==
           if old(Forgotten(ptr, where)) && !SameSlot(got, where)
           then Stopped(FreeReport(bibop.c, bibop.m.live, bibop.shadow, bibop.mem, where))
           else Returned(StartOf(got)))
      && (r.NoMapping? ==> forall o :: IsLive(o) <==> old(IsLive(o)))
      && (r.Stopped? ==> forall o :: IsLive(o) <==> old(IsLive(o)) || o == got)
      && (r.Returned? ==> !old(IsLive(got)) && forall o ::
           IsLive(o) <==> (old(IsLive(o)) || o == got) && !(ptr != 0 && o == ObjectAt(bibop.c, ptr, where)))
    }

    /** What is returned has room for the request, unless that wraps; a live object is returned
        as it is exactly when it has; and an address that is nobody's is an error. */
    twostate predicate MeetsRequest(ptr: nat, sz: nat, where: Address, r: CallResult, got: Object)
      reads big`live
    {
      && (r.Returned? && sz + 1 < SIZE_LIMIT && (ptr == 0 || where.AtSlot? || !IsSmallAddr(bibop.c, ptr)) ==>
           sz <= Usable(got))
      && (ptr != 0 && sz > 0 && old(IsLive(ObjectAt(bibop.c, ptr, where))) ==>
           where.AtSlot? || !IsSmallAddr(bibop.c, ptr) ==>
           (r == Returned(ptr) <==> sz <= old(Usable(ObjectAt(bibop.c, ptr, where)))))
      && (ptr != 0 && sz > 0 && !IsSmallAddr(bibop.c, ptr) && !old(IsLive(Large(ptr))) ==> r == Null)
    }

    twostate predicate KeepsBytes(ptr: nat, sz: nat, where: Address, r: CallResult, got: Object)
      reads bibop`m, bibop`mem, big`mem, big`live
    {
      && (r.Returned? && ptr != 0 ==> Copied(Content(got), old(Content(ObjectAt(bibop.c, ptr, where))),
           Least(old(Usable(ObjectAt(bibop.c, ptr, where))), sz)))
      && forall o :: old(IsLive(o)) && IsLive(o) ==> Content(o) == old(Content(o))
    }

    method NewForNull(t: Tid, threadIndex: nat, sz: nat, random: nat, low: bool, mapped: Option<nat>,
                      fits: bool, faults: bool, ghost where: Address) returns (r: CallResult, ghost got: Object)
      requires Valid() && Caller(t, threadIndex) && sz < SIZE_LIMIT && MayFree(t, 0, where)
      requires !IsLarge(bibop.c, sz) ==> (fits <==> HasRoom(threadIndex, sz, random, low))
      requires IsLarge(bibop.c, sz) && mapped.Some? ==> MayMap(mapped.value, AlignUp(sz))
      requires faults ==> Stray(0, where)
      modifies this`numLargeObjects, bibop, bibop.threadBag, big, big.xmap, big.xmap.nodes, big.xmap.heads
      ensures Valid() && Named(0, where)
      ensures EndsWithNew(0, sz, mapped, fits, faults, where, r, got)
      ensures MeetsRequest(0, sz, where, r, got) && KeepsBytes(0, sz, where, r, got)
    {
      hide FreeGuard.Valid, FreeGuard.Content, InHeaps, EntryMapped, MayFree, WasAllocated, EntryReadable, FreeReport;
      AllHaveContent();
      MayFreeNamed(t, 0, where);
      r, got := XxMalloc(t, threadIndex, sz, random, low, mapped, fits);
    }

    method FreeForZero(t: Tid, ptr: nat, ghost where: Address) returns (r: CallResult, ghost got: Object)
      requires Valid() && ptr != 0 && MayFree(t, ptr, where)
      modifies bibop, bibop.threadBag, big, big.xmap, big.xmap.nodes, big.xmap.heads
      ensures Valid() && Named(ptr, where) && EndsAtOnce(ptr, 0, where, r, got)
      ensures MeetsRequest(ptr, 0, where, r, got) && KeepsBytes(ptr, 0, where, r, got)
    {
      hide FreeGuard.Valid, FreeGuard.Content, InHeaps, EntryMapped, MayFree, WasAllocated, EntryReadable, FreeReport;
      hide FreeOutcome, Names;
      MayFreeNamed(t, ptr, where);
      AllHaveContent();
      var outcome := XxFree(t, ptr, where);
      AllHaveContent();
      r, got := Null, Large(0);
      match outcome {
        case Refused(report) => r := Stopped(report);
        case Astray => r := Overrun;
        case Unmapped => r := Overrun;
        case _ =>
      }
    }

    /** The answers that need no new object. */
    method AnswerAtOnce(t: Tid, ptr: nat, sz: nat, ghost where: Address)
        returns (answer: Option<CallResult>, oldSize: nat, ghost got: Object)
      requires Valid() && ptr != 0 && sz > 0 && MayFree(t, ptr, where)
      ensures Named(ptr, where)
      ensures answer.None? <==> NeedsNew(ptr, sz, where)
      ensures answer.None? ==> SizeAt(ptr, where) == Some(oldSize) && oldSize < sz
      ensures answer.Some? ==> EndsAtOnce(ptr, sz, where, answer.value, got)
      ensures answer.Some? ==> MeetsRequest(ptr, sz, where, answer.value, got)
      ensures answer.Some? ==> KeepsBytes(ptr, sz, where, answer.value, got)
    {
      hide FreeGuard.Valid, FreeGuard.Content, InHeaps, EntryMapped, MayFree, WasAllocated, FreeOutcome, Names;
      MayFreeNamed(t, ptr, where);
      got, oldSize := Large(0), 0;
      var refused := Refuses(t, ptr, where);
      if refused {
        return Some(Stopped(MisalignedFree)), oldSize, got;
      }
      var size := UsableSize(t, ptr, where);
      if size.None? {
        answer := Some(Null);
      } else if size.value >= sz {
        answer, got := Some(Returned(ptr)), ObjectAt(bibop.c, ptr, where);
      } else {
        answer, oldSize := None, size.value;
      }
    }

    method Resize(t: Tid, threadIndex: nat, ptr: nat, sz: nat, random: nat, low: bool, mapped: Option<nat>,
                  fits: bool, faults: bool, ghost where: Address) returns (r: CallResult, ghost got: Object)
      requires ptr != 0 && sz > 0
      requires Valid() && Caller(t, threadIndex) && sz < SIZE_LIMIT && MayFree(t, ptr, where)
      requires NeedsNew(ptr, sz, where) && !IsLarge(bibop.c, sz) ==> (fits <==> HasRoom(threadIndex, sz, random, low))
      requires NeedsNew(ptr, sz, where) && IsLarge(bibop.c, sz) && mapped.Some? ==> MayMap(mapped.value, AlignUp(sz))
      requires faults ==> Stray(ptr, where)
      modifies this`numLargeObjects, bibop, bibop.threadBag, big, big.xmap, big.xmap.nodes, big.xmap.heads
      ensures Valid() && Named(ptr, where)
      ensures if !old(NeedsNew(ptr, sz, where)) then EndsAtOnce(ptr, sz, where, r, got)
        else EndsWithNew(ptr, sz, mapped, fits, faults, where, r, got)
      ensures MeetsRequest(ptr, sz, where, r, got) && KeepsBytes(ptr, sz, where, r, got)
    {
      hide FreeGuard.Valid, FreeGuard.Content, InHeaps, MayFree, WasAllocated, EntryReadable, FreeReport;
      hide FreeGuard.Named, FreeGuard.CannotRead, FreeGuard.MayMap, FreeGuard.HasRoom, FreeGuard.EndsAtOnce;
      var answer, oldSize;
      answer, oldSize, got := AnswerAtOnce(t, ptr, sz, where);
      if answer.Some? {
        r := answer.value;
      } else {
        r, got := Move(t, threadIndex, ptr, oldSize, sz, random, low, mapped, fits, faults, where);
      }
    }

    /** `xxrealloc`. Null is a new allocation, size zero a free, and an unknown large address
        an error; a misaligned address is refused. Otherwise the size of the class or of the
        large object decides: if it is enough the pointer is returned as it is, if not the
        bytes move to a new object. Where no object is live that ends in the report of the
        free, or, when the bytes there or the shadow entry cannot be read, before it.
        `mapped` and `fits` are as for `xxmalloc`, and `faults` is what the hardware finds
        when bytes are read that were never handed out. */
    method XxRealloc(t: Tid, threadIndex: nat, ptr: nat, sz: nat, random: nat, low: bool, mapped: Option<nat>,
                     fits: bool, faults: bool, ghost where: Address) returns (r: CallResult, ghost got: Object)
      requires Valid() && Caller(t, threadIndex) && sz < SIZE_LIMIT && MayFree(t, ptr, where)
      requires NeedsNew(ptr, sz, where) && !IsLarge(bibop.c, sz) ==> (fits <==> HasRoom(threadIndex, sz, random, low))
      requires NeedsNew(ptr, sz, where) && IsLarge(bibop.c, sz) && mapped.Some? ==> MayMap(mapped.value, AlignUp(sz))
      requires faults ==> Stray(ptr, where)
      modifies this`numLargeObjects, bibop, bibop.threadBag, big, big.xmap, big.xmap.nodes, big.xmap.heads
      ensures Valid() && Named(ptr, where)
      ensures if !old(NeedsNew(ptr, sz, where)) then EndsAtOnce(ptr, sz, where, r, got)
        else EndsWithNew(ptr, sz, mapped, fits, faults, where, r, got)
      ensures MeetsRequest(ptr, sz, where, r, got) && KeepsBytes(ptr, sz, where, r, got)
    {
      hide FreeGuard.Valid, FreeGuard.MayFree, FreeGuard.EndsAtOnce, FreeGuard.EndsWithNew, FreeGuard.MeetsRequest;
      hide FreeGuard.KeepsBytes, FreeGuard.Named, FreeGuard.HasRoom, FreeGuard.MayMap, FreeGuard.Stray, IsLarge;
      if ptr == 0 {
        r, got := NewForNull(t, threadIndex, sz, random, low, mapped, fits, faults, where);
      } else if sz == 0 {
        r, got := FreeForZero(t, ptr, where);
      } else {
        r, got := Resize(t, threadIndex, ptr, sz, random, low, mapped, fits, faults, where);
      }
    }

    // ---------------------------------------------------------- memalign

    lemma LiveSlotAligned(s: Slot, alignBits: nat)
      requires Valid() && s in bibop.m.live && alignBits <= PAGE_BITS && Pow2(alignBits) <= ClassSize(s.item.bag)
      ensures UserAddr(bibop.c, s) % Pow2(alignBits) == 0
    {
      hide BibopHeap.Follows, BigHeap.Valid;
      LiveReachable(s);
      SlotAligned(bibop.c, s, alignBits);
    }

    /** Where the object lies, for a power of two up to a page. */
    lemma AlignedByRequest(got: Object, alignment: nat, size: nat, mapped: nat)
      requires Valid() && IsLive(got) && 0 < size && alignment + size < SIZE_LIMIT && DividesPage(alignment)
      requires got.Small? ==> alignment <= ClassSize(got.s.item.bag)
      requires got.Large? ==> mapped % PAGE == 0 && PutAtEnd(got.addr, mapped, alignment + size)
      ensures alignment > 0 && (got.Small? ==> StartOf(got) % alignment == 0)
      ensures got.Large? ==> var rest, q := StartOf(got) % alignment, size % alignment;
        && ((StartOf(got) + rest) % alignment == 0 <==> q == 0 || 2 * q == alignment)
        && (rest == 0 <==> q == 0)
    {
      hide FreeGuard.Valid, Pow2;
      var bits: nat :| bits <= PAGE_BITS && Pow2(bits) == alignment;
      if got.Small? {
        LiveSlotAligned(got.s, bits);
      } else {
        LargeEndsAligned(got.addr, mapped, bits, size);
        AlignedFromEnd(got.addr, alignment, size);
      }
    }

    /** `xxmemalign`. The object that is allocated has room behind the pointer that is
        returned, and the pointer is aligned exactly when the object is, or lies half way. For
        a power of two up to a page the request decides: a small object is itself aligned; a
        large one ends on a page, so the pointer is aligned when the residue of the size is
        zero or half the alignment, and a start when it is zero. */
    method XxMemalign(t: Tid, threadIndex: nat, alignment: nat, size: nat, random: nat, low: bool, mapped: Option<nat>,
                      fits: bool) returns (r: CallResult, ghost got: Object)
      requires Valid() && Caller(t, threadIndex) && alignment < SIZE_LIMIT && size < SIZE_LIMIT
      requires !IsLarge(bibop.c, Together(alignment, size)) ==>
        (fits <==> HasRoom(threadIndex, Together(alignment, size), random, low))
      requires IsLarge(bibop.c, Together(alignment, size)) && mapped.Some? ==>
        MayMap(mapped.value, AlignUp(Together(alignment, size)))
      modifies this`numLargeObjects, bibop, bibop.threadBag, big, big.xmap, big.xmap.nodes, big.xmap.heads
      ensures Valid()
      ensures r.Null? <==> size == 0
      ensures r.NoMapping? <==> size > 0 && IsLarge(bibop.c, Together(alignment, size)) && mapped.None?
      ensures r.Overrun? <==> size > 0 && !IsLarge(bibop.c, Together(alignment, size)) && !fits
      ensures r.DivisionByZero? <==> size > 0 && !r.NoMapping? && !r.Overrun? && alignment == 0
      ensures !r.Stopped?
      ensures if r.Returned? || r.DivisionByZero?
        then !old(IsLive(got)) && forall o :: IsLive(o) <==> old(IsLive(o)) || o == got
        else forall o :: IsLive(o) <==> old(IsLive(o))
      ensures r.Returned? ==> (got.Large? <==> IsLarge(bibop.c, Together(alignment, size)))
      ensures r.Returned? ==> var rest := StartOf(got) % alignment;
        && r.ptr == StartOf(got) + rest && (r.ptr % alignment == 0 <==> rest == 0 || 2 * rest == alignment)
        && (alignment + size + 1 < SIZE_LIMIT ==>
             alignment + size <= Usable(got) && r.ptr + size <= StartOf(got) + Usable(got))
      ensures r.Returned? && alignment + size + 1 < SIZE_LIMIT && DividesPage(alignment) ==> var q := size % alignment;
        && (r.ptr % alignment == 0 <==> got.Small? || q == 0 || 2 * q == alignment)
        && (r.ptr == StartOf(got) <==> got.Small? || q == 0)
      ensures r.Returned? && alignment + size + 1 < SIZE_LIMIT ==>
        (got.Small? <==> alignment + size + 1 <= ClassSize(bibop.c.UsableBags() - 1))
      ensures forall o :: old(IsLive(o)) ==> Content(o) == old(Content(o))
    {
      hide FreeGuard.Valid, FreeGuard.Content, InHeaps, DividesPage, Together;
      TogetherFits(alignment, size);
      got := Large(0);
      AllHaveContent();
      if size == 0 {
        return Null, got;
      }
      var n := Together(alignment, size);
      r, got := XxMalloc(t, threadIndex, n, random, low, mapped, fits);
      if !r.Returned? {
        return;
      }
      if alignment == 0 {
        r := DivisionByZero;
        return;
      }
      if alignment + size + 1 < SIZE_LIMIT && DividesPage(alignment) {
        AlignedByRequest(got, alignment, size, if mapped.Some? then mapped.value else 0);
      }
      TwiceResidue(r.ptr, alignment);
      var residualBytes := r.ptr % alignment;
      r := Returned(r.ptr + residualBytes);
    }

    /** `xxfree` of a pointer into a large object frees it exactly when the pointer is its
        start, and not `_heapEnd`. */
    lemma AcceptsStartsOnly(k: nat, ptr: nat, t: Tid, where: Address)
      requires Valid() && k in big.live && k <= ptr < k + big.live[k].size && ptr != 0 && MayFree(t, ptr, where)
      ensures FreeOutcome(bibop.c, bibop.m.live, bibop.shadow, bibop.mem, big.live.Keys, ptr, where) == Done
        <==> ptr == k && ptr != HeapEnd(bibop.c)
    {
      hide BibopHeap.Follows, FreeGuard.SmallPlaced, Good, Quiet, AllPlaced, FreeOutcome, EntryReadable;
      DoneExactly(bibop.c, bibop.m.live, bibop.shadow, bibop.mem, big.live.Keys, ptr, where);
      assert EndsAtMapping(k, big.live[k]);
      if IsSmallAddr(bibop.c, ptr) && where.AtSlot? && where.s in bibop.m.live {
        LiveInMapping(where.s);
      }
    }
  }

  lemma Sixteen()
    ensures Pow2(4) == 16
  {
  }

  /** A request for which `xxmemalign` neither aligns nor returns a start that `xxfree` knows:
      alignment 16, and one byte more than the threshold for large objects. */
  lemma MemalignFails(c: Config) returns (size: nat)
    requires c.Valid()
    ensures DividesPage(16) && 16 + size + 1 < SIZE_LIMIT && IsLarge(c, Together(16, size))
    ensures size % 16 != 0 && 2 * (size % 16) != 16
  {
    hide Pow2;
    size := Pow2(c.largeBits) + 1;
    Sixteen();
    Pow2Add(c.largeBits - 4, 4);
    MulMod(Pow2(c.largeBits - 4), 16);
    DivModUnique(size, 16, Pow2(c.largeBits - 4), 1);
    Pow2Strict(c.largeBits, UINT_BITS);
    UintRange();
  }

  /** A request of `SIZE_MAX` bytes gets a slot of the least class. Copying `n` bytes there
      writes over its canary exactly when there are as many as the class has, or more. */
  lemma WrappedCopy(c: Config, got: Slot, n: nat)
    requires ValidItem(c, got.item) && got.item.bag == BagFor(SIZE_LIMIT - 1)
    ensures UserAddr(c, got) <= CanaryAddr(c, got) < UserAddr(c, got) + n <==> ClassSize(0) <= n
  {
    LeastClass();
    assert WithCanary(SIZE_LIMIT - 1) == 0;
  }
}
