/** `BibopHeap` itself: records of integers and addresses updated in place, proved to follow
    the machine over slots. */
module Bibop {
  import opened Arithmetic
  import opened Layout
  import opened Slots
  import opened FreeLists
  import opened Options
  import opened Threads
  import opened Machine
  import opened Uninterrupted
  import opened Overwrites

  /** One element of `_threadBag`. */
  datatype PerThreadBag = PerThreadBag(
    freelist: seq<DList<nat>>,
    position: seq<nat>,
    lastofCurBag: seq<nat>,
    numObjects: int,
    lastObjectIndex: int,
    bagNum: nat,
    threadIndex: nat,
    classSize: nat,
    shiftBits: nat,
    startOffset: nat,
    startShadowMemOffset: nat,
    nextHeapObjectOffset: int,
    nextShadowHeapObjectOffset: int,
    guardsize: nat,
    guardoffset: nat)

  // ------------------------------------------------------------ what initialize computes

  /** The fields that never change, in closed form. */
  ghost predicate StaticFields(c: Config, r: PerThreadBag, thread: nat, bag: nat)
    requires c.Valid() && bag < c.UsableBags()
  {
    && r.classSize == ClassSize(bag) && r.shiftBits == MIN_BLOCK_BITS + bag
    && r.bagNum == bag && r.threadIndex == thread
    && c.heapBegin + r.startOffset == BagStart(c, 0, thread, bag)
    && r.startShadowMemOffset == StartShadow(c, thread, bag)
    && r.guardoffset == GuardOffset(c, bag) && r.guardsize == GuardSize(c, bag)
    && r.numObjects == NumObjects(c, bag) && r.lastObjectIndex == NumObjects(c, bag) - 1
    && r.nextHeapObjectOffset == NextHeapObjectOffset(c, bag)
  }

  lemma SameBits(c: Config)
    requires c.Valid()
    ensures Pow2(c.largeBits) <= c.BagSize()
    ensures c.BagSize() == Pow2(c.largeBits) <==> c.bagBits == c.largeBits
  {
    Pow2Monotone(c.largeBits, c.bagBits);
    if c.largeBits < c.bagBits { Pow2Strict(c.largeBits, c.bagBits); }
  }

  /** `guardsize` and `guardoffset` of one bag. */
  method GuardsOfBag(c: Config, bagNum: nat, classSize: nat) returns (guardsize: nat, guardoffset: nat)
    requires c.Valid() && bagNum < c.UsableBags() && classSize == ClassSize(bagNum)
    ensures guardoffset == GuardOffset(c, bagNum) && guardsize == GuardSize(c, bagNum)
  {
    hide Pow2, ClassSize;
    var lastUsableBagSize := Pow2(c.largeBits);
    if c.BagSize() <= lastUsableBagSize {
      lastUsableBagSize := c.BagSize();
    }
    guardsize := if classSize > PAGE then classSize else PAGE;
    guardoffset := guardsize;
    SameBits(c);
    if bagNum == c.UsableBags() - 1 {
      if c.BagSize() == lastUsableBagSize {
        guardoffset := 0;
        guardsize := 0;
      }
      var unusable: nat := c.NumBags() - c.largeBits + MIN_BLOCK_BITS - 1;
      guardsize := guardsize + unusable * c.BagSize();
    }
  }

  /** `numBagObjects` of one bag: as many objects as fill it up to its trailing gap. */
  method ObjectsOfBag(c: Config, bagNum: nat, classSize: nat) returns (numBagObjects: int)
    requires c.Valid() && bagNum < c.UsableBags() && classSize == ClassSize(bagNum)
    ensures numBagObjects == NumObjects(c, bagNum) && numBagObjects >= 1
    ensures numBagObjects * classSize + GuardOffset(c, bagNum) == c.BagSize()
  {
    BagIsFilled(c, bagNum);
    numBagObjects := c.BagSize() / classSize;
    if numBagObjects > 1 {
      if classSize < PAGE {
        numBagObjects := numBagObjects - PAGE / classSize;
      } else {
        numBagObjects := numBagObjects - 1;
      }
    }
  }

  ghost predicate AtFirstSlot(c: Config, d: DList<nat>, position: nat, last: nat, it: Item)
    requires ValidItem(c, it)
  {
    d == InitDLL() && position == SlotAddr(c, Slot(it, 0)) && last == LastOf(c, Slot(it, 0))
  }

  /** The empty free list, first slot and last slot of each set item. */
  method PointersOfBag(c: Config, threadNum: nat, bagNum: nat, offsetBag: nat, guardoffset: nat, classSize: nat)
      returns (freelist: seq<DList<nat>>, position: seq<nat>, last: seq<nat>)
    requires c.Valid() && threadNum < c.Threads() && bagNum < c.UsableBags()
    requires classSize == ClassSize(bagNum) && guardoffset == GuardOffset(c, bagNum)
    requires c.heapBegin + offsetBag == BagStart(c, 0, threadNum, bagNum)
    ensures |freelist| == |position| == |last| == SET_SIZE
    ensures forall i: nat :: i < SET_SIZE ==>
      AtFirstSlot(c, freelist[i], position[i], last[i], Item(threadNum, bagNum, i))
  {
    freelist, position, last := [], [], [];
    for i := 0 to SET_SIZE
      invariant |freelist| == |position| == |last| == i
      invariant forall j: nat :: j < i ==> AtFirstSlot(c, freelist[j], position[j], last[j], Item(threadNum, bagNum, j))
    {
      FirstSlot(c, Item(threadNum, bagNum, i));
      var start := c.heapBegin + offsetBag + i * c.HeapSize();
      var end := GetLastOfBag(c, start, guardoffset, classSize);
      freelist, position, last := freelist + [InitDLL()], position + [start], last + [end];
    }
  }

  /** The body of the inner loop of `initialize`: everything about one bag. */
  method InitBag(c: Config, threadNum: nat, bagNum: nat, classSize: nat, shiftBits: nat, offsetBag: nat,
                 offsetShadowMem: nat)
      returns (r: PerThreadBag)
    requires c.Valid() && threadNum < c.Threads() && bagNum < c.UsableBags()
    requires classSize == ClassSize(bagNum) && shiftBits == MIN_BLOCK_BITS + bagNum
    requires c.heapBegin + offsetBag == BagStart(c, 0, threadNum, bagNum)
    requires offsetShadowMem == StartShadow(c, threadNum, bagNum)
    ensures StaticFields(c, r, threadNum, bagNum)
    ensures |r.freelist| == |r.position| == |r.lastofCurBag| == SET_SIZE
    ensures forall i: nat :: i < SET_SIZE ==>
      AtFirstSlot(c, r.freelist[i], r.position[i], r.lastofCurBag[i], Item(threadNum, bagNum, i))
  {
    var guardsize, guardoffset := GuardsOfBag(c, bagNum, classSize);
    var numBagObjects := ObjectsOfBag(c, bagNum, classSize);
    var freelist, position, last := PointersOfBag(c, threadNum, bagNum, offsetBag, guardoffset, classSize);
    var heapSize := c.HeapSize();
    var nextHeap := heapSize * (SET_SIZE - 1) + (heapSize - c.BagSize() + classSize + guardoffset);
    r := PerThreadBag(freelist, position, last, numBagObjects, numBagObjects - 1, bagNum, threadNum, classSize,
      shiftBits, offsetBag, offsetShadowMem, nextHeap, 0, guardsize, guardoffset);
  }

  // ------------------------------------------------------------ encoding slots as addresses

  ghost function Ptr(c: Config, s: Slot): nat {
    if ValidItem(c, s.item) then SlotShadow(c, s) else 0
  }

  ghost function EncodeLink(c: Config, l: Link<Slot>): Link<nat> {
    match l
    case Null => Null
    case Sentinel => Sentinel
    case To(s) => To(Ptr(c, s))
  }

  ghost function EncodeList(c: Config, d: DList<Slot>): DList<nat> {
    DList(EncodeLink(c, d.next), EncodeLink(c, d.prev))
  }

  /** The shadow memory holds, at each slot's entry, the address form of the slot's link. */
  ghost predicate LinksEncoded(c: Config, shadow: Cells<nat>, link: Cells<Slot>) {
    forall s: Slot :: ValidItem(c, s.item) ==> Next(shadow, Ptr(c, s)) == EncodeLink(c, Next(link, s))
  }

  lemma WriteEncoded(c: Config, shadow: Cells<nat>, link: Cells<Slot>, s: Slot, l: Link<Slot>)
    requires LinksEncoded(c, shadow, link) && ValidItem(c, s.item)
    ensures LinksEncoded(c, shadow[Ptr(c, s) := EncodeLink(c, l)], link[s := l])
  {
    forall r: Slot | ValidItem(c, r.item)
      ensures Next(shadow[Ptr(c, s) := EncodeLink(c, l)], Ptr(c, r)) == EncodeLink(c, Next(link[s := l], r))
    {
      if Ptr(c, r) == Ptr(c, s) { SlotShadowInjective(c, r, s); }
    }
  }

  lemma InsertEncoded(c: Config, shadow: Cells<nat>, link: Cells<Slot>, d: DList<Slot>, s: Slot)
    requires LinksEncoded(c, shadow, link) && ValidItem(c, s.item)
    requires d.prev.To? ==> ValidItem(c, d.prev.node.item)
    ensures var (shadow', d') := InsertDLLTail(shadow, EncodeList(c, d), Ptr(c, s));
      var (link', e) := InsertDLLTail(link, d, s);
      LinksEncoded(c, shadow', link') && d' == EncodeList(c, e)
  {
    WriteEncoded(c, shadow, link, s, Null);
    if d.prev.To? {
      WriteEncoded(c, shadow[Ptr(c, s) := Null], link[s := Null], d.prev.node, To(s));
    }
  }

  lemma RemoveEncoded(c: Config, shadow: Cells<nat>, link: Cells<Slot>, d: DList<Slot>)
    requires LinksEncoded(c, shadow, link)
    requires d.next.To? && ValidItem(c, d.next.node.item)
    ensures RemoveDLLHead(shadow, EncodeList(c, d))
      == (EncodeList(c, RemoveDLLHead(link, d).0), Ptr(c, RemoveDLLHead(link, d).1))
  {
  }

  // ------------------------------------------------------------ addresses

  /** The addresses of the heap mapping: in usable bags those of slots, those that are not a
      multiple of the class size away from the start of the bag, and those behind the last
      object; and those in bags that no class uses. */
  datatype Address =
    | AtSlot(s: Slot)
    | Inside(heap: nat, thread: nat, bag: nat, offset: nat)
    | Behind(heap: nat, thread: nat, bag: nat, idx: nat)
    | Unusable(heap: nat, thread: nat, bag: nat, offset: nat)

  ghost predicate Names(c: Config, addr: nat, where: Address)
    requires c.Valid()
  {
    match where
    case AtSlot(s) => ValidItem(c, s.item) && addr == SlotAddr(c, s)
    case Inside(heap, thread, bag, offset) =>
      && thread < c.Threads() && bag < c.UsableBags() && offset < c.BagSize()
      && offset % ClassSize(bag) != 0 && addr == BagStart(c, heap, thread, bag) + offset
    case Behind(heap, thread, bag, idx) =>
      && thread < c.Threads() && bag < c.UsableBags() && NumObjects(c, bag) <= idx
      && (idx + 1) * ClassSize(bag) <= c.BagSize() && addr == BagStart(c, heap, thread, bag) + idx * ClassSize(bag)
    case Unusable(heap, thread, bag, offset) =>
      && thread < c.Threads() && c.UsableBags() <= bag < c.NumBags() && offset < c.BagSize()
      && addr == BagStart(c, heap, thread, bag) + offset
  }

  /** A free succeeds, ends in one of three reports, or goes on with an empty record. */
  datatype FreeResult = Freed | MisalignedFree | DoubleFree | DamagedCanary | Astray

  /** The shadow entry the decoder finds for an address behind the last object: that of some
      slot of another bag, or of none. */
  function EntryBehind(c: Config, where: Address): nat
    requires c.Valid() && where.Behind? && where.bag <= c.UsableBags()
  {
    c.shadowBegin + where.heap * ShadowCeil(c) + StartShadow(c, where.thread, where.bag) + where.idx * SHADOW_INFO
  }

  /** The shadow entry it finds in an unusable bag, at a rate of one for each byte. */
  function EntryUnusable(c: Config, where: Address): nat
    requires c.Valid() && where.Unusable?
  {
    c.shadowBegin + where.heap * ShadowCeil(c) + where.offset * SHADOW_INFO
  }

  /** The byte that a class size of zero makes the canary. */
  function ByteBefore(mem: map<nat, int>, addr: nat): int { if addr > 0 then Byte(mem, addr - 1) else 0 }

  /** The shadow says that the slot is in use, and its canary has been overwritten. */
  ghost predicate Broken(c: Config, shadow: Cells<nat>, mem: map<nat, int>, n: Slot) {
    Next(shadow, Ptr(c, n)) == Sentinel && Byte(mem, CanaryAddr(c, n)) != CANARY_SENTINEL
  }

  /** What a free of the slot looks for: its own canary, and those of the two slots on either
      side that are in use. */
  ghost predicate Damage(c: Config, shadow: Cells<nat>, mem: map<nat, int>, s: Slot) {
    Byte(mem, CanaryAddr(c, s)) != CANARY_SENTINEL || exists n: Slot ::
      && n.item == s.item && (n.k + 1 == s.k || n.k + 2 == s.k || n.k == s.k + 1 || n.k == s.k + 2)
      && Broken(c, shadow, mem, n)
  }

  /** The three ways a free of a slot ends. */
  ghost predicate SlotDecided(c: Config, live: set<Slot>, shadow: Cells<nat>, mem: map<nat, int>, s: Slot,
                              r: FreeResult)
  {
    && (r == DoubleFree <==> s !in live)
    && (r == DamagedCanary <==> s in live && Damage(c, shadow, mem, s))
    && (r == Freed <==> s in live && !Damage(c, shadow, mem, s))
  }

  /** What a free of an address ends in. */
  ghost function FreeReport(c: Config, live: set<Slot>, shadow: Cells<nat>, mem: map<nat, int>, where: Address)
      : FreeResult
    requires c.Valid() && (where.Behind? ==> where.bag < c.UsableBags())
  {
    match where
    case Inside(_, _, _, _) => MisalignedFree
    case AtSlot(s) =>
      if s !in live then DoubleFree else if Damage(c, shadow, mem, s) then DamagedCanary else Freed
    case Behind(_, _, _, _) => if Next(shadow, EntryBehind(c, where)) == Sentinel then DamagedCanary else DoubleFree
    case Unusable(heap, thread, bag, offset) =>
      if Next(shadow, EntryUnusable(c, where)) != Sentinel then DoubleFree
      else if ByteBefore(mem, BagStart(c, heap, thread, bag) + offset) != CANARY_SENTINEL then DamagedCanary
      else Astray
  }

  /** A multiple of the class size that starts in a bag also ends there. */
  lemma MultipleFits(c: Config, bag: nat, idx: nat)
    requires c.Valid() && bag < c.UsableBags() && idx * ClassSize(bag) < c.BagSize()
    ensures (idx + 1) * ClassSize(bag) <= c.BagSize()
  {
    hide Pow2;
    var n, cs := Pow2(c.bagBits - MIN_BLOCK_BITS - bag), ClassSize(bag);
    Pow2Add(c.bagBits - MIN_BLOCK_BITS - bag, MIN_BLOCK_BITS + bag);
    if idx >= n { MulMonotone(n, idx, cs); }
    MulMonotone(idx + 1, n, cs);
  }

  lemma Divide(x: nat, d: nat) returns (q: nat, r: nat)
    requires d > 0
    ensures x == q * d + r && r < d
  {
    q, r := x / d, x % d;
  }

  /** An address is put together from its digits. */
  lemma AddressFromDigits(c: Config, addr: nat) returns (heap: nat, thread: nat, bag: nat, offset: nat)
    requires c.heapBegin <= addr
    ensures thread < c.Threads() && bag < c.NumBags() && offset < c.BagSize()
    ensures addr == BagStart(c, heap, thread, bag) + offset
  {
    hide Pow2;
    var g, q;
    g, offset := Divide(addr - c.heapBegin, c.BagSize());
    q, bag := Divide(g, c.NumBags());
    heap, thread := Divide(q, c.Threads());
  }

  /** Every address of the heap mapping has a name. */
  lemma EveryAddressNamed(c: Config, addr: nat) returns (where: Address)
    requires c.Valid() && c.heapBegin <= addr
    ensures Names(c, addr, where)
  {
    hide Pow2, NumObjects, GlobalBag;
    var heap, thread, bag, offset := AddressFromDigits(c, addr);
    if bag >= c.UsableBags() {
      where := Unusable(heap, thread, bag, offset);
      return;
    }
    var cs, idx := ClassSize(bag), offset / ClassSize(bag);
    if offset % cs != 0 {
      where := Inside(heap, thread, bag, offset);
    } else if idx < NumObjects(c, bag) {
      var l := Loc(heap, thread, bag, idx);
      where := AtSlot(SlotAt(c, l));
      LocSlotRoundTrip(c, l);
    } else {
      where := Behind(heap, thread, bag, idx);
      MultipleFits(c, bag, idx);
    }
  }

  /** An unusable bag is not the first. */
  lemma UnusableBeyond(c: Config, addr: nat, where: Address)
    requires c.Valid() && where.Unusable? && Names(c, addr, where)
    ensures c.heapBegin < addr
    ensures BagStart(c, where.heap, where.thread, where.bag)
      == BagStart(c, where.heap, where.thread, where.bag - 1) + c.BagSize()
  {
    hide Pow2;
    var g := GlobalBag(c, where.heap, where.thread, where.bag - 1);
    MulMonotone(0, where.heap * c.Threads() + where.thread, c.NumBags());
    MulMonotone(0, g, c.BagSize());
    MulDistrib(g, 1, c.BagSize());
  }

  lemma DecodeUnusable(c: Config, addr: nat, where: Address)
    requires c.Valid() && where.Unusable? && Names(c, addr, where)
    ensures c.heapBegin < addr
    ensures GetShadowObjectInfo(c, addr)
      == Object(where.thread, where.bag, where.heap % SET_SIZE, EntryUnusable(c, where))
  {
    hide Pow2, BagStart, BagOfAddr, ThreadOfAddr, HeapOfAddr;
    UnusableBeyond(c, addr, where);
    OffsetDigits(c, where.heap, where.thread, where.bag, where.offset);
  }

  /** A slot has no byte in another bag. */
  lemma NoSlotElsewhere(c: Config, l: Loc, heap: nat, thread: nat, bag: nat, a: nat)
    requires ValidLoc(c, l) && thread < c.Threads() && bag < c.NumBags()
    requires BagStart(c, heap, thread, bag) <= a < BagStart(c, heap, thread, bag) + c.BagSize()
    requires l.heap != heap || l.thread != thread || l.bag != bag
    ensures a < AddrOf(c, l) || AddrOf(c, l) + ClassSize(l.bag) <= a
  {
    var g, g' := GlobalBag(c, l.heap, l.thread, l.bag), GlobalBag(c, heap, thread, bag);
    ObjectInBag(c, l);
    if g < g' {
      MulGap(g, g', c.BagSize());
    } else if g' < g {
      MulGap(g', g, c.BagSize());
    } else {
      GlobalBagInjective(c, l, Loc(heap, thread, bag, 0));
      assert false;
    }
  }

  lemma DecodeBehind(c: Config, addr: nat, where: Address)
    requires c.Valid() && where.Behind? && Names(c, addr, where)
    ensures c.heapBegin <= addr
    ensures GetShadowObjectInfo(c, addr)
      == Object(where.thread, where.bag, where.heap % SET_SIZE, EntryBehind(c, where))
  {
    var cs := ClassSize(where.bag);
    MulDistrib(where.idx, 1, cs);
    OffsetDigits(c, where.heap, where.thread, where.bag, where.idx * cs);
    MulMod(where.idx, cs);
  }

  /** No slot reaches behind the last object of a bag. */
  lemma NoSlotBehind(c: Config, l: Loc, addr: nat, where: Address)
    requires ValidLoc(c, l) && where.Behind? && Names(c, addr, where)
    ensures Disjoint(AddrOf(c, l), ClassSize(l.bag), addr, ClassSize(where.bag))
  {
    var g, g' := GlobalBag(c, l.heap, l.thread, l.bag), GlobalBag(c, where.heap, where.thread, where.bag);
    var cs := ClassSize(where.bag);
    ObjectInBag(c, l);
    MulDistrib(where.idx, 1, cs);
    MulMonotone(0, where.idx, cs);
    if g < g' {
      MulGap(g, g', c.BagSize());
    } else if g' < g {
      MulGap(g', g, c.BagSize());
    } else {
      GlobalBagInjective(c, l, Loc(where.heap, where.thread, where.bag, 0));
      MulGap(l.idx, where.idx, cs);
    }
  }

  /** Only bytes of slots have ever been written. */
  ghost predicate Owns(c: Config, s: Slot, a: nat) {
    ValidItem(c, s.item) && SlotAddr(c, s) <= a < SlotAddr(c, s) + ClassSize(s.item.bag)
  }

  ghost predicate BytesInSlots(c: Config, mem: map<nat, int>) {
    forall a <- mem :: exists s :: Owns(c, s, a)
  }

  lemma ByteOfSlot(c: Config, mem: map<nat, int>, s: Slot, a: nat, value: int)
    requires BytesInSlots(c, mem) && Owns(c, s, a)
    ensures BytesInSlots(c, mem[a := value])
  {
  }

  lemma CanaryInSlot(c: Config, mem: map<nat, int>, s: Slot)
    requires BytesInSlots(c, mem) && ValidItem(c, s.item)
    ensures BytesInSlots(c, mem[CanaryAddr(c, s) := CANARY_SENTINEL])
  {
    ByteOfSlot(c, mem, s, CanaryAddr(c, s), CANARY_SENTINEL);
  }

  lemma LiveSealed(c: Config, m: System, s: Slot)
    requires Good(c, m) && s in m.live
    ensures ValidItem(c, s.item) && CanaryIntact(c, m.heap, s)
  {
    var q, P :| Inv(c, m, q, P);
    assert PlaceOf(P, s) == Live;
  }

  lemma BehindUntouched(c: Config, mem: map<nat, int>, addr: nat, where: Address)
    requires c.Valid() && BytesInSlots(c, mem) && where.Behind? && Names(c, addr, where)
    ensures Byte(mem, addr + ClassSize(where.bag) - 1) != CANARY_SENTINEL
  {
    var a := addr + ClassSize(where.bag) - 1;
    if a in mem {
      var s :| Owns(c, s, a);
      NoSlotBehind(c, LocOf(c, s), addr, where);
    }
  }

  /** A last usable bag without a guard holds one object. */
  lemma OneObject(c: Config, l: Loc)
    requires ValidLoc(c, l) && GuardOffset(c, l.bag) == 0
    ensures l.idx == 0 && c.bagBits == c.largeBits && l.bag + 1 == c.UsableBags() && ClassSize(l.bag) == c.BagSize()
  {
    hide Pow2, NumObjects;
    BagIsFilled(c, l.bag);
    if NumObjects(c, l.bag) > 1 { MulMonotone(2, NumObjects(c, l.bag), ClassSize(l.bag)); }
  }

  /** The byte before an address in an unusable bag belongs to a slot at one place only: where
      the last usable bag ends with an object. */
  lemma ByteBeforeUnusable(c: Config, s: Slot, addr: nat, where: Address)
    requires c.Valid() && where.Unusable? && Names(c, addr, where) && addr > 0 && Owns(c, s, addr - 1)
    ensures where.bag == c.UsableBags() && where.offset == 0 && c.bagBits == c.largeBits
    ensures LocOf(c, s) == Loc(where.heap, where.thread, where.bag - 1, 0) && CanaryAddr(c, s) == addr - 1
  {
    hide Pow2, BagStart, NumObjects;
    var l := LocOf(c, s);
    UnusableBeyond(c, addr, where);
    if where.offset > 0 {
      NoSlotElsewhere(c, l, where.heap, where.thread, where.bag, addr - 1);
    } else {
      if l.heap != where.heap || l.thread != where.thread || l.bag != where.bag - 1 {
        NoSlotElsewhere(c, l, where.heap, where.thread, where.bag - 1, addr - 1);
      }
      ObjectInBag(c, l);
      OneObject(c, l);
    }
  }

  function FirstOfBag(c: Config, heap: nat, thread: nat, bag: nat): (s: Slot)
    requires c.Valid() && thread < c.Threads() && bag < c.UsableBags()
    ensures ValidItem(c, s.item) && LocOf(c, s) == Loc(heap, thread, bag, 0)
  {
    BagIsFilled(c, bag);
    LocSlotRoundTrip(c, Loc(heap, thread, bag, 0));
    SlotAt(c, Loc(heap, thread, bag, 0))
  }

  /** The entry of the first byte of an unusable bag is that of the first slot of the heap. */
  lemma EntryOfFirst(c: Config, where: Address)
    requires c.Valid() && where.Unusable? && where.offset == 0
    ensures EntryUnusable(c, where) == SlotShadow(c, FirstOfBag(c, where.heap, 0, 0))
  {
  }

  /** The last usable bag, when it is one object to its end, ends with that object's canary. */
  lemma CanaryOfLast(c: Config, addr: nat, where: Address)
    requires c.Valid() && where.Unusable? && Names(c, addr, where) && where.offset == 0
    requires where.bag == c.UsableBags() && c.bagBits == c.largeBits
    ensures addr > 0 && CanaryAddr(c, FirstOfBag(c, where.heap, where.thread, where.bag - 1)) == addr - 1
  {
    hide Pow2, BagStart;
    UnusableBeyond(c, addr, where);
  }

  // ------------------------------------------------------------ the heap object

  function TrailingRange(c: Config, l: Loc): (int, int)
    requires c.Valid()
  {
    (TrailingGuardStart(c, l), GuardSize(c, l.bag))
  }

  ghost predicate IsTrailingGuard(c: Config, g: (int, int), l: Loc) {
    ValidLoc(c, l) && g == TrailingRange(c, l)
  }

  ghost predicate IsRandomGuard(c: Config, h: Heap, g: (int, int), s: Slot) {
    PageAligned(c, s) && g == (SlotAddr(c, s), RandomGuardSize(s.item.bag))
      && Range(s.item, s.k, s.k + SkipCount(s.item.bag)) <= h.skipped
  }

  /** Some trailing guard, or the random guard over slots that are skipped. */
  ghost predicate IsGuard(c: Config, h: Heap, g: (int, int)) {
    || (exists l :: IsTrailingGuard(c, g, l))
    || (exists s :: IsRandomGuard(c, h, g, s))
  }

  /** A trailing guard in one of the first heaps, those `initialize` sets up. */
  ghost predicate IsFirstGuard(c: Config, g: (int, int)) {
    exists l :: IsTrailingGuard(c, g, l) && l.heap < SET_SIZE
  }

  /** The bag a slot lies in has its trailing guard, if it has one at all. */
  ghost predicate BagGuarded(c: Config, guards: set<(int, int)>, s: Slot)
    requires ValidItem(c, s.item)
  {
    GuardSize(c, s.item.bag) == 0 || TrailingRange(c, LocOf(c, s)) in guards
  }

  /** All bytes of the slot are protected. */
  ghost predicate Covered(c: Config, guards: set<(int, int)>, s: Slot) {
    ValidItem(c, s.item) && exists g <- guards ::
      g.0 <= SlotAddr(c, s) && SlotAddr(c, s) + ClassSize(s.item.bag) <= g.0 + g.1
  }

  /** Every protected range is accounted for, every bag entered has its trailing guard, and
      every slot that was skipped is protected. */
  ghost predicate GuardsFollow(c: Config, h: Heap, guards: set<(int, int)>) {
    && (forall g <- guards :: IsGuard(c, h, g))
    && (forall s: Slot :: ValidItem(c, s.item) && s.k <= Pos(h, s.item) ==> BagGuarded(c, guards, s))
    && (forall s <- h.skipped :: Covered(c, guards, s))
  }

  /** The record of an item's bag stands where the machine says. */
  ghost predicate RecordFollows(c: Config, r: PerThreadBag, h: Heap, it: Item)
    requires ValidItem(c, it)
  {
    var at := Slot(it, Pos(h, it));
    && StaticFields(c, r, it.thread, it.bag)
    && r.nextShadowHeapObjectOffset == NextShadowHeapObjectOffset(c, it.bag)
    && |r.freelist| == |r.position| == |r.lastofCurBag| == SET_SIZE
    && r.position[it.setItem] == SlotAddr(c, at)
    && r.lastofCurBag[it.setItem] == LastOf(c, at)
    && r.freelist[it.setItem] == EncodeList(c, ListOf(h, it))
  }

  /** A record moved to another slot. */
  ghost function MovedTo(c: Config, r: PerThreadBag, i: nat, s: Slot): PerThreadBag
    requires ValidItem(c, s.item) && i < |r.position| && i < |r.lastofCurBag|
  {
    r.(position := r.position[i := SlotAddr(c, s)], lastofCurBag := r.lastofCurBag[i := LastOf(c, s)])
  }

  lemma RecordMoved(c: Config, r: PerThreadBag, h: Heap, h': Heap, s: Slot, jt: Item)
    requires ValidItem(c, s.item) && ValidItem(c, jt) && RecordFollows(c, r, h, jt)
    requires h'.list == h.list && s.k == Pos(h', s.item)
    requires jt != s.item ==> Pos(h', jt) == Pos(h, jt)
    ensures RecordFollows(c,
      if jt.thread == s.item.thread && jt.bag == s.item.bag then MovedTo(c, r, s.item.setItem, s) else r, h', jt)
  {
  }

  /** A record just laid out: every set item at slot 0 with an empty free list. */
  ghost predicate FreshRecord(c: Config, r: PerThreadBag, thread: nat, bag: nat)
    requires c.Valid() && thread < c.Threads() && bag < c.UsableBags()
  {
    && StaticFields(c, r, thread, bag)
    && |r.freelist| == |r.position| == |r.lastofCurBag| == SET_SIZE
    && forall i: nat :: i < SET_SIZE ==>
      AtFirstSlot(c, r.freelist[i], r.position[i], r.lastofCurBag[i], Item(thread, bag, i))
  }

  ghost predicate FirstBagsGuarded(c: Config, guards: set<(int, int)>, thread: nat, bag: nat)
    requires c.Valid() && thread < c.Threads() && bag < c.UsableBags()
  {
    forall i: nat :: i < SET_SIZE ==> BagGuarded(c, guards, Slot(Item(thread, bag, i), 0))
  }

  lemma FirstSlotIsBagStart(c: Config, it: Item)
    requires ValidItem(c, it)
    ensures TrailingRange(c, LocOf(c, Slot(it, 0)))
      == (SlotAddr(c, Slot(it, 0)) + c.BagSize() - GuardOffset(c, it.bag), GuardSize(c, it.bag))
    ensures LocOf(c, Slot(it, 0)) == Loc(it.setItem, it.thread, it.bag, 0)
  {
    DivModUnique(0, PerBag(c, it), 0, 0);
  }

  /** Bag by bag, addresses move by the bag size and shadow offsets by the bag's entries. */
  lemma NextBag(c: Config, thread: nat, bag: nat)
    requires c.Valid() && bag < c.UsableBags()
    ensures BagStart(c, 0, thread, bag + 1) == BagStart(c, 0, thread, bag) + c.BagSize()
    ensures StartShadow(c, thread, bag + 1) == StartShadow(c, thread, bag) + NumObjects(c, bag) * SHADOW_INFO
    ensures ClassSize(bag + 1) == ClassSize(bag) * 2
    ensures (bag + 1) * c.BagSize() == bag * c.BagSize() + c.BagSize()
    ensures ObjectsBefore(c, bag + 1) == ObjectsBefore(c, bag) + NumObjects(c, bag)
  {
    MulDistrib(bag, 1, c.BagSize());
    MulDistrib(GlobalBag(c, 0, thread, bag), 1, c.BagSize());
  }

  lemma FirstThread(c: Config)
    requires c.Valid()
    ensures BagStart(c, 0, 0, 0) == c.heapBegin && StartShadow(c, 0, 0) == 0
  {
  }

  /** Past the unusable bags begins the next thread's sub-heap. */
  lemma NextThread(c: Config, thread: nat)
    requires c.Valid()
    ensures BagStart(c, 0, thread + 1, 0)
      == BagStart(c, 0, thread, 0) + c.UsableBags() * c.BagSize() + (c.NumBags() - c.UsableBags()) * c.BagSize()
    ensures StartShadow(c, thread + 1, 0) == StartShadow(c, thread, c.UsableBags())
    ensures (thread + 1) * ObjectsPerThread(c) == thread * ObjectsPerThread(c) + ObjectsPerThread(c)
  {
    var u, n, b := c.UsableBags(), c.NumBags(), c.BagSize();
    GlobalBagSplit(c, 0, thread, 0);
    GlobalBagSplit(c, 0, thread + 1, 0);
    MulDistrib(thread, 1, n);
    MulDistrib(thread * n, n, b);
    MulDistrib(u, n - u, b);
    MulDistrib(thread, 1, ObjectsPerThread(c));
  }

  lemma StoredQuietly(c: Config, m: System, m': System, s: Slot, ptr: nat, offset: nat, value: int)
    requires Good(c, m) && Quiet(m) && s in m.live && offset + 1 < ClassSize(s.item.bag) && ptr == UserAddr(c, s)
    requires m' == m.(heap := m.heap.(mem := m.heap.mem[ptr + offset := value]))
    ensures Good(c, m') && Quiet(m')
  {
    StoreQuietly(c, m, s, offset, value);
  }

  lemma GuardApart(c: Config, m: System, g: (int, int), s: Slot, P: map<Slot, Place>)
    requires PlacesMatch(c, m, P) && s in m.live && ValidItem(c, s.item) && IsGuard(c, m.heap, g)
    ensures Disjoint(SlotAddr(c, s), ClassSize(s.item.bag), g.0, g.1)
  {
    if l :| IsTrailingGuard(c, g, l) {
      TrailingGuardDisjoint(c, LocOf(c, s), l);
    } else {
      var r :| IsRandomGuard(c, m.heap, g, r);
      RangeMember(r.item, r.k, r.k + SkipCount(r.item.bag));
      assert PlaceOf(P, s) == Live;
      RandomGuardDisjoint(c, r, s);
    }
  }

  lemma SetItemOfHeap(i: int, q: int)
    requires 0 <= i < SET_SIZE
    ensures (i + SET_SIZE * q) % SET_SIZE == i
  {
  }

  /** Decoding the address of a slot recovers its item and its shadow entry. */
  lemma DecodeSlot(c: Config, s: Slot)
    requires ValidItem(c, s.item)
    ensures c.heapBegin <= SlotAddr(c, s)
    ensures GetShadowObjectInfo(c, SlotAddr(c, s))
      == Object(s.item.thread, s.item.bag, s.item.setItem, SlotShadow(c, s))
  {
    hide GetShadowObjectInfo, BagOfAddr, AddrOf, ShadowOf, NumObjects;
    var l := LocOf(c, s);
    DecodeAddr(c, l);
    SetItemOfHeap(s.item.setItem, s.k / PerBag(c, s.item));
  }

  lemma SealAddresses(c: Config, s: Slot)
    requires ValidItem(c, s.item)
    ensures c.heapBegin <= SlotAddr(c, s) && GetShadowInBag(c, SlotAddr(c, s), s.item.thread, s.item.bag) == Ptr(c, s)
    ensures CanaryAddr(c, s) == SlotAddr(c, s) + ClassSize(s.item.bag) - 1
  {
    DecodeAddr(c, LocOf(c, s));
  }

  lemma RecordRelinked(c: Config, r: PerThreadBag, h: Heap, h': Heap, it: Item, jt: Item)
    requires ValidItem(c, it) && ValidItem(c, jt) && RecordFollows(c, r, h, jt)
    requires h'.pos == h.pos && forall x :: x != it ==> ListOf(h', x) == ListOf(h, x)
    ensures RecordFollows(c,
      if jt.thread == it.thread && jt.bag == it.bag
      then r.(freelist := r.freelist[it.setItem := EncodeList(c, ListOf(h', it))])
      else r, h', jt)
  {
  }

  lemma OldGuardsStay(c: Config, h: Heap, h': Heap, guards: set<(int, int)>)
    requires h.skipped <= h'.skipped && forall g <- guards :: IsGuard(c, h, g)
    ensures forall g <- guards :: IsGuard(c, h', g)
  {
    forall g <- guards ensures IsGuard(c, h', g) {
      if l :| IsTrailingGuard(c, g, l) {
      } else {
        var s :| IsRandomGuard(c, h, g, s);
        assert IsRandomGuard(c, h', g, s);
      }
    }
  }

  lemma SameBookkeeping(c: Config, h: Heap, h': Heap, guards: set<(int, int)>)
    requires h'.pos == h.pos && h'.skipped == h.skipped && GuardsFollow(c, h, guards)
    ensures GuardsFollow(c, h', guards)
  {
    OldGuardsStay(c, h, h', guards);
    assert forall it :: Pos(h', it) == Pos(h, it);
  }

  /** The first slot after a random guard at `s`. */
  function Skipped(s: Slot): Slot { s.(k := s.k + SkipCount(s.item.bag)) }

  /** Where the bump pointer goes from slot `s`. */
  ghost function AdvanceSlot(c: Config, s: Slot, low: bool): Slot {
    var next := s.(k := s.k + 1);
    if low && PageAligned(c, next) then Skipped(next) else next
  }

  lemma AdvanceSlotPos(c: Config, h: Heap, it: Item, low: bool)
    ensures var s, h' := Slot(it, Pos(h, it)), Advance(c, h, it, low);
      && AdvanceSlot(c, s, low) == Slot(it, Pos(h', it))
      && h'.list == h.list && h'.link == h.link && h'.mem == h.mem
      && forall jt :: jt != it ==> Pos(h', jt) == Pos(h, jt)
  {
  }

  lemma MovedTwice(c: Config, r: PerThreadBag, i: nat, s: Slot, s': Slot)
    requires ValidItem(c, s.item) && ValidItem(c, s'.item) && i < |r.position| && i < |r.lastofCurBag|
    ensures MovedTo(c, MovedTo(c, r, i, s), i, s') == MovedTo(c, r, i, s')
  {
    var a, b := SlotAddr(c, s), SlotAddr(c, s');
    assert r.position[i := a][i := b] == r.position[i := b];
    var x, y := LastOf(c, s), LastOf(c, s');
    assert r.lastofCurBag[i := x][i := y] == r.lastofCurBag[i := y];
  }

  function Before(s: Slot): Slot
    requires s.k > 0
  {
    s.(k := s.k - 1)
  }

  /** The trailing guard set when the bump pointer leaves slot `s`, if it leaves the bag. */
  ghost function NewBagGuards(c: Config, s: Slot): set<(int, int)>
    requires ValidItem(c, s.item)
  {
    if SlotAddr(c, s) < LastOf(c, s) || GuardSize(c, s.item.bag) == 0 then {}
    else {TrailingRange(c, LocOf(c, s.(k := s.k + 1)))}
  }

  /** The ranges protected while the bump pointer advances from slot `s`. */
  ghost function AdvanceGuards(c: Config, s: Slot, low: bool): set<(int, int)>
    requires ValidItem(c, s.item)
  {
    var next := s.(k := s.k + 1);
    if low && PageAligned(c, next) then
      NewBagGuards(c, s) + ({(SlotAddr(c, next), RandomGuardSize(s.item.bag))} + NewBagGuards(c, Before(Skipped(next))))
    else NewBagGuards(c, s)
  }

  /** The ranges protected by an allocation. */
  ghost function NewGuards(c: Config, h: Heap, it: Item, useBump: bool, low: bool): set<(int, int)>
    requires ValidItem(c, it)
  {
    if ListOf(h, it).next.To? && !useBump then {} else AdvanceGuards(c, Slot(it, Pos(h, it)), low)
  }

  lemma NewBagGuardIsTrailing(c: Config, h: Heap, s: Slot)
    requires ValidItem(c, s.item)
    ensures forall g <- NewBagGuards(c, s) :: IsGuard(c, h, g)
  {
    forall g <- NewBagGuards(c, s) ensures IsGuard(c, h, g) {
      assert IsTrailingGuard(c, g, LocOf(c, s.(k := s.k + 1)));
    }
  }

  lemma BumpGuards(c: Config, s: Slot)
    requires ValidItem(c, s.item)
    ensures var t := s.(k := s.k + 1);
      && Bump(c, s.item.bag, SlotAddr(c, s), LastOf(c, s)) == (SlotAddr(c, t), LastOf(c, t))
      && NewBagGuards(c, s) == (if SlotAddr(c, s) < LastOf(c, s) || GuardSize(c, s.item.bag) == 0 then {}
          else {(SlotAddr(c, t) + c.BagSize() - GuardOffset(c, s.item.bag), GuardSize(c, s.item.bag))})
      && (SlotAddr(c, s) >= LastOf(c, s) ==> SlotAddr(c, t) == BagStart(c, LocOf(c, t).heap, t.item.thread, t.item.bag))
      // a slot that shares the bag shares its guard
      && (SlotAddr(c, s) < LastOf(c, s) ==> TrailingRange(c, LocOf(c, t)) == TrailingRange(c, LocOf(c, s)))
  {
    BumpIsSuccessor(c, s);
    NextLoc(c, s);
  }

  /** One step of the bump pointer keeps the bag of the next slot guarded. */
  lemma NextBagGuarded(c: Config, guards: set<(int, int)>, s: Slot)
    requires ValidItem(c, s.item) && BagGuarded(c, guards, s) && NewBagGuards(c, s) <= guards
    ensures BagGuarded(c, guards, s.(k := s.k + 1))
  {
    BumpGuards(c, s);
  }

  /** A slot further on in the bag has the same trailing guard. */
  lemma SameBagGuarded(c: Config, guards: set<(int, int)>, s: Slot, j: nat)
    requires ValidItem(c, s.item) && LocOf(c, s).idx + j < PerBag(c, s.item) && BagGuarded(c, guards, s)
    ensures BagGuarded(c, guards, s.(k := s.k + j))
  {
    hide AddrOf, NumObjects;
    StepsInBag(c, s, j);
  }

  lemma AdvancedBags(c: Config, h: Heap, it: Item, low: bool, guards: set<(int, int)>, s: Slot)
    requires ValidItem(c, it) && AdvanceGuards(c, Slot(it, Pos(h, it)), low) <= guards
    requires BagGuarded(c, guards, Slot(it, Pos(h, it)))
    requires s.item == it && Pos(h, it) < s.k <= Pos(Advance(c, h, it, low), it)
    ensures BagGuarded(c, guards, s)
  {
    hide BagGuarded, NewBagGuards, LocOf, SlotAddr;
    var here, next := Slot(it, Pos(h, it)), Slot(it, Pos(h, it) + 1);
    NextBagGuarded(c, guards, here);
    assert here.(k := here.k + 1) == next;
    if s != next {
      PageAlignedSlot(c, next);
      var last := Before(Skipped(next));
      if s.k <= last.k {
        SameBagGuarded(c, guards, next, s.k - next.k);
        assert next.(k := next.k + (s.k - next.k)) == s;
      } else {
        SameBagGuarded(c, guards, next, last.k - next.k);
        assert next.(k := next.k + (last.k - next.k)) == last;
        NextBagGuarded(c, guards, last);
        assert last.(k := last.k + 1) == s;
      }
    }
  }

  /** The slots of a random guard lie in it. */
  lemma GuardCovers(c: Config, s: Slot, r: Slot)
    requires PageAligned(c, s) && r.item == s.item && s.k <= r.k < s.k + SkipCount(s.item.bag)
    ensures SlotAddr(c, s) <= SlotAddr(c, r)
    ensures SlotAddr(c, r) + ClassSize(r.item.bag) <= SlotAddr(c, s) + RandomGuardSize(s.item.bag)
  {
    hide SlotAddr, Pow2;
    var j, n, cs := r.k - s.k, SkipCount(s.item.bag), ClassSize(s.item.bag);
    PageAlignedSlot(c, s);
    StepsInBag(c, s, j);
    RandomGuardSkips(c, s);
    assert s.(k := s.k + j) == r;
    MulMonotone(0, j, cs);
    MulDistrib(j, 1, cs);
    MulMonotone(j + 1, n, cs);
  }

  lemma SkippedCovered(c: Config, h: Heap, it: Item, low: bool, guards: set<(int, int)>, r: Slot)
    requires ValidItem(c, it) && GuardsFollow(c, h, guards) && r in Advance(c, h, it, low).skipped
    ensures Covered(c, guards + AdvanceGuards(c, Slot(it, Pos(h, it)), low), r)
  {
    hide SlotAddr, NewBagGuards;
    if r in h.skipped {
      assert Covered(c, guards, r);
    } else {
      var next := Slot(it, Pos(h, it) + 1);
      RangeMember(it, next.k, next.k + SkipCount(it.bag));
      GuardCovers(c, next, r);
      var g := (SlotAddr(c, next), RandomGuardSize(it.bag));
      assert g in AdvanceGuards(c, Slot(it, Pos(h, it)), low);
    }
  }

  /** Advancing the bump pointer keeps the guards in order. */
  lemma AdvancedGuards(c: Config, h: Heap, it: Item, low: bool, guards: set<(int, int)>)
    requires ValidItem(c, it) && GuardsFollow(c, h, guards)
    ensures GuardsFollow(c, Advance(c, h, it, low), guards + AdvanceGuards(c, Slot(it, Pos(h, it)), low))
  {
    var s, next, h' := Slot(it, Pos(h, it)), Slot(it, Pos(h, it) + 1), Advance(c, h, it, low);
    var added := AdvanceGuards(c, Slot(it, Pos(h, it)), low);
    OldGuardsStay(c, h, h', guards);
    NewBagGuardIsTrailing(c, h', s);
    if low && PageAligned(c, next) {
      NewBagGuardIsTrailing(c, h', Before(Skipped(next)));
      assert IsRandomGuard(c, h', (SlotAddr(c, next), RandomGuardSize(it.bag)), next);
    }
    forall r <- h'.skipped ensures Covered(c, guards + added, r) { SkippedCovered(c, h, it, low, guards, r); }
    forall r: Slot | ValidItem(c, r.item) && r.k <= Pos(h', r.item) ensures BagGuarded(c, guards + added, r) {
      assert BagGuarded(c, guards, s);
      if r.item == it && r.k > Pos(h, it) {
        AdvancedBags(c, h, it, low, guards + added, r);
      } else {
        assert BagGuarded(c, guards, r);
      }
    }
  }

  /** The size of a random guard: a page, or an object if that is larger. */
  function PageOrObject(classSize: nat): nat { if classSize < PAGE then PAGE else classSize }

  /** The trailing guard of a slot's bag, if the slot is the first in it and there is one. */
  ghost predicate GuardOfNewBag(c: Config, s: Slot, g: (int, int))
    requires ValidItem(c, s.item)
  {
    LocOf(c, s).idx == 0 && GuardSize(c, s.item.bag) > 0 && g == TrailingRange(c, LocOf(c, s))
  }

  lemma NewBag(c: Config, s: Slot, g: (int, int))
    requires ValidItem(c, s.item)
    ensures g in NewBagGuards(c, s) <==> GuardOfNewBag(c, s.(k := s.k + 1), g)
  {
    hide SlotAddr, LastOf;
    BumpIsSuccessor(c, s);
    NextLoc(c, s);
  }

  lemma SlotsOfGuard(c: Config, s: Slot)
    requires PageAligned(c, s)
    ensures var n := PageOrObject(ClassSize(s.item.bag)) / ClassSize(s.item.bag);
      SkipCount(s.item.bag) == n && n * ClassSize(s.item.bag) == PageOrObject(ClassSize(s.item.bag))
  {
    RandomGuardSkips(c, s);
    DivModUnique(ClassSize(s.item.bag), ClassSize(s.item.bag), 1, 0);
  }

  /** What the step of the bump pointer does to an item. When the next slot is page aligned and
      the draw is low, the slots from there on that fill a page, or one larger object, are given
      up, and the pointer stands behind them. Otherwise it stands at the next slot. */
  ghost predicate Advanced(c: Config, h: Heap, h': Heap, it: Item, low: bool)
    requires ValidItem(c, it)
  {
    var k, cs := Pos(h, it), ClassSize(it.bag);
    if low && SlotAddr(c, Slot(it, k + 1)) % PAGE == 0 then
      var n := PageOrObject(cs) / cs;
      && n * cs == PageOrObject(cs) && Pos(h', it) == k + 1 + n
      && (forall r: Slot :: r in h'.skipped <==> r in h.skipped || (r.item == it && k + 1 <= r.k < k + 1 + n))
    else Pos(h', it) == k + 1 && h'.skipped == h.skipped
  }

  /** … and what it protects, from slot `s` to slot number `k'`: the slots given up, and the
      trailing guard of each bag that is entered. */
  ghost predicate GuardsAdded(c: Config, before: set<(int, int)>, after: set<(int, int)>, s: Slot, k': nat, low: bool)
    requires ValidItem(c, s.item)
  {
    var next := s.(k := s.k + 1);
    forall g :: g in after <==>
      g in before || GuardOfNewBag(c, next, g) || GuardOfNewBag(c, s.(k := k'), g)
      || (low && SlotAddr(c, next) % PAGE == 0 && g == (SlotAddr(c, next), PageOrObject(ClassSize(s.item.bag))))
  }

  lemma AdvanceMeans(c: Config, h: Heap, it: Item, low: bool)
    requires ValidItem(c, it)
    ensures Advanced(c, h, Advance(c, h, it, low), it, low)
  {
    hide SlotAddr;
    var next := Slot(it, Pos(h, it) + 1);
    if low && PageAligned(c, next) {
      SlotsOfGuard(c, next);
      RangeMember(it, next.k, next.k + SkipCount(it.bag));
    }
  }

  lemma GuardsMean(c: Config, s: Slot, low: bool)
    requires ValidItem(c, s.item)
    ensures GuardsAdded(c, {}, AdvanceGuards(c, s, low), s, AdvanceSlot(c, s, low).k, low)
  {
    hide SlotAddr, NewBagGuards, GuardOfNewBag;
    var next := s.(k := s.k + 1);
    if low && PageAligned(c, next) {
      forall g ensures g in NewBagGuards(c, Before(Skipped(next))) <==> GuardOfNewBag(c, Skipped(next), g) {
        NewBag(c, Before(Skipped(next)), g);
        assert Before(Skipped(next)).(k := Before(Skipped(next)).k + 1) == Skipped(next);
      }
    }
    forall g ensures g in NewBagGuards(c, s) <==> GuardOfNewBag(c, next, g) { NewBag(c, s, g); }
  }

  /** An allocation, in the same terms. */
  lemma AllocationMeans(c: Config, h: Heap, it: Item, useBump: bool, low: bool, guards: set<(int, int)>)
    requires ValidItem(c, it)
    ensures var s, h' := MallocSlot(h, it, useBump), MallocHeap(c, h, it, useBump, low);
      && h'.mem == h.mem[CanaryAddr(c, s) := CANARY_SENTINEL] && h'.link == h.link[s := Sentinel]
      && if ListOf(h, it).next.To? && !useBump
         then Pos(h', it) == Pos(h, it) && h'.skipped == h.skipped && NewGuards(c, h, it, useBump, low) == {}
         else
           && Advanced(c, h, h', it, low)
           && GuardsAdded(c, guards, guards + NewGuards(c, h, it, useBump, low), s, Pos(h', it), low)
  {
    hide SlotAddr, AdvanceGuards, Advance;
    AdvanceSlotPos(c, h, it, low);
    AdvanceMeans(c, h, it, low);
    GuardsMean(c, Slot(it, Pos(h, it)), low);
  }

  /** `numObjectsPerPageLessOne * classSize`. */
  function SmallPageStep(classSize: nat, ghost bag: nat): nat
    requires classSize == ClassSize(bag) && classSize < PAGE
  {
    ClassVersusPage(bag);
    (PAGE / classSize - 1) * classSize
  }

  lemma RandomGuardSteps(c: Config, s: Slot)
    requires PageAligned(c, s)
    ensures var last, cs := Before(Skipped(s)), ClassSize(s.item.bag);
      && SlotAddr(c, last) == SlotAddr(c, s) + (if cs < PAGE then SmallPageStep(cs, s.item.bag) else 0)
      && LastOf(c, last) == LastOf(c, s)
      && TrailingRange(c, LocOf(c, last)) == TrailingRange(c, LocOf(c, s))
  {
    RandomGuardSkips(c, s);
    PageAlignedSlot(c, s);
    StepsInBag(c, s, SkipCount(s.item.bag) - 1);
  }

  lemma GapIsPages(c: Config, bag: nat)
    requires c.Valid() && bag < c.UsableBags()
    ensures c.BagSize() % PAGE == 0 && GuardOffset(c, bag) % PAGE == 0 && GuardSize(c, bag) % PAGE == 0
  {
    hide Pow2;
    PageBits();
    ClassVersusPage(bag);
    var pages, unusable: nat := Pow2(c.bagBits - PAGE_BITS), c.NumBags() - c.UsableBags();
    Pow2Add(c.bagBits - PAGE_BITS, PAGE_BITS);
    MulMod(pages, PAGE);
    MulAssoc(unusable, pages, PAGE);
    MulMod(unusable * pages, PAGE);
    SumOfMultiples(GuardOffset(c, bag), unusable * c.BagSize(), PAGE);
  }

  /** What is protected is always a range of whole pages. */
  lemma GuardsAreWholePages(c: Config, h: Heap, g: (int, int))
    requires c.Valid() && IsGuard(c, h, g)
    ensures g.0 % PAGE == 0 && g.1 % PAGE == 0
  {
    hide Pow2, BagStart, SlotAddr;
    if l :| IsTrailingGuard(c, g, l) {
      GapIsPages(c, l.bag);
      BagStartAligned(c, l.heap, l.thread, l.bag);
      SumOfMultiples(BagStart(c, l.heap, l.thread, l.bag), c.BagSize(), PAGE);
      MultipleRest(GuardOffset(c, l.bag), TrailingGuardStart(c, l), PAGE);
    } else {
      var s :| IsRandomGuard(c, h, g, s);
      ClassVersusPage(s.item.bag);
    }
  }

  /** Behind every bag but one that is filled by one object there is a gap of a page or an
      object. A trailing guard begins with that gap, where the last object ends, and runs on to
      the next usable bag: the next class, or behind the last class the next thread's first. */
  lemma GuardFillsGap(c: Config, l: Loc)
    requires ValidLoc(c, l)
    ensures TrailingRange(c, l).0 == BagStart(c, l.heap, l.thread, l.bag) + c.BagSize()
      - if l.bag + 1 == c.UsableBags() && c.BagSize() == ClassSize(l.bag) then 0 else PageOrObject(ClassSize(l.bag))
    ensures TrailingRange(c, l).0 == BagStart(c, l.heap, l.thread, l.bag) + NumObjects(c, l.bag) * ClassSize(l.bag)
    ensures TrailingRange(c, l).0 + TrailingRange(c, l).1
      == if l.bag + 1 < c.UsableBags() then BagStart(c, l.heap, l.thread, l.bag + 1)
         else BagStart(c, l.heap, l.thread + 1, 0)
  {
    hide Pow2, NumObjects;
    BagIsFilled(c, l.bag);
    SameBits(c);
    var g, b, unusable: nat := GlobalBag(c, l.heap, l.thread, l.bag), c.BagSize(), c.NumBags() - c.UsableBags();
    MulDistrib(g, 1, b);
    MulDistrib(g + 1, unusable, b);
    MulDistrib(l.heap * c.Threads() + l.thread, 1, c.NumBags());
  }

  /** The slot stands behind the last one of its own free list, and no other list, no byte and
      no bump pointer has changed. */
  ghost predicate QueuedLast(h: Heap, h': Heap, s: Slot) {
    var d, d' := ListOf(h, s.item), ListOf(h', s.item);
    && d'.prev == To(s) && Next(h'.link, s) == Null
    && (d.next.Null? ==> d'.next == To(s))
    && (d.next.To? ==> d'.next == d.next && (d.prev.To? && d.prev.node != s ==> Next(h'.link, d.prev.node) == To(s)))
    && (forall it :: it != s.item ==> ListOf(h', it) == ListOf(h, it))
    && (forall r :: r != s && d.prev != To(r) ==> Next(h'.link, r) == Next(h.link, r))
    && h'.mem == h.mem && h'.pos == h.pos && h'.skipped == h.skipped
  }

  lemma PutQueuesLast(h: Heap, s: Slot)
    requires var d := ListOf(h, s.item); (d.next.Null? && d.prev.Null?) || (d.next.To? && d.prev.To? && d.prev != To(s))
    ensures QueuedLast(h, PutTail(h, s), s)
  {
  }

  class BibopHeap {
    const c: Config
    const threadBag: array2<PerThreadBag>

    var shadow: Cells<nat>
    var mem: map<nat, int>
    ghost var guards: set<(int, int)>   // ranges given to mprotect
    ghost var m: System                 // the machine this object follows

    ghost predicate Follows()
      reads this, threadBag
    {
      && c.Valid() && threadBag.Length0 == c.Threads() && threadBag.Length1 == c.UsableBags()
      && (forall it :: ValidItem(c, it) ==> RecordFollows(c, threadBag[it.thread, it.bag], m.heap, it))
      && LinksEncoded(c, shadow, m.heap.link)
      && mem == m.heap.mem && BytesInSlots(c, mem)
      && GuardsFollow(c, m.heap, guards)
    }

    /** Between calls: no thread is inside the heap, and the object follows a good machine. */
    ghost predicate Valid()
      reads this, threadBag
    {
      Follows() && Quiet(m) && Good(c, m)
    }

    /** The same when clients may have overwritten any bytes of the slots. */
    ghost predicate Orderly()
      reads this, threadBag
    {
      Follows() && Quiet(m) && GoodButBytes(c, m)
    }

    lemma ValidIsOrderly()
      requires Valid()
      ensures Orderly()
    {
      GoodIsGoodButBytes(c, m);
    }

    /** The records of all bags up to `(thread, bag)` in loop order are laid out. */
    ghost predicate LaidOut(thread: nat, bag: nat)
      reads this, threadBag
    {
      && c.Valid() && threadBag.Length0 == c.Threads() && threadBag.Length1 == c.UsableBags()
      && (forall x, y :: 0 <= x < c.Threads() && 0 <= y < c.UsableBags() && (x < thread || (x == thread && y < bag)) ==>
           FreshRecord(c, threadBag[x, y], x, y) && FirstBagsGuarded(c, guards, x, y))
      && (forall g <- guards :: IsFirstGuard(c, g))
    }

    /** `setGuardPage`, given the start of a bag, protects that bag's trailing guard if it has
        one: the range behind its last object. */
    method SetGuardPage(start: nat, guardsize: nat, guardoffset: nat, ghost l: Loc)
      requires ValidLoc(c, l) && start == BagStart(c, l.heap, l.thread, l.bag)
      requires guardsize == GuardSize(c, l.bag) && guardoffset == GuardOffset(c, l.bag)
      modifies this`guards
      ensures guards == old(guards) + if GuardSize(c, l.bag) == 0 then {} else {TrailingRange(c, l)}
      ensures forall i: nat :: i < NumObjects(c, l.bag) ==>
        AddrOf(c, l.(idx := i)) + ClassSize(l.bag) <= TrailingRange(c, l).0
    {
      forall i: nat | i < NumObjects(c, l.bag)
        ensures AddrOf(c, l.(idx := i)) + ClassSize(l.bag) <= TrailingRange(c, l).0
      {
        ObjectInBag(c, l.(idx := i));
      }
      if guardsize == 0 {
        return;
      }
      guards := guards + {(start + c.BagSize() - guardoffset, guardsize)};
    }

    /** The `setGuardPage` calls of `initialize` for one bag. */
    method GuardFirstBags(r: PerThreadBag, thread: nat, bag: nat)
      requires c.Valid() && thread < c.Threads() && bag < c.UsableBags() && FreshRecord(c, r, thread, bag)
      requires forall g <- guards :: IsFirstGuard(c, g)
      modifies this`guards
      ensures old(guards) <= guards && FirstBagsGuarded(c, guards, thread, bag)
      ensures forall g <- guards :: IsFirstGuard(c, g)
    {
      for i := 0 to SET_SIZE
        invariant old(guards) <= guards
        invariant forall j: nat :: j < i ==> BagGuarded(c, guards, Slot(Item(thread, bag, j), 0))
        invariant forall g <- guards :: IsFirstGuard(c, g)
      {
        ghost var s := Slot(Item(thread, bag, i), 0);
        assert AtFirstSlot(c, r.freelist[i], r.position[i], r.lastofCurBag[i], s.item);
        FirstSlotIsBagStart(c, s.item);
        assert IsTrailingGuard(c, TrailingRange(c, LocOf(c, s)), LocOf(c, s));
        SetGuardPage(r.position[i], r.guardsize, r.guardoffset, LocOf(c, s));
      }
    }

    /** The inner loop's body: one record and its guards. */
    method LayOutBag(threadNum: nat, bagNum: nat, classSize: nat, shiftBits: nat, offsetBag: nat, offsetShadowMem: nat)
        returns (numBagObjects: nat)
      requires LaidOut(threadNum, bagNum) && threadNum < c.Threads() && bagNum < c.UsableBags()
      requires classSize == ClassSize(bagNum) && shiftBits == MIN_BLOCK_BITS + bagNum
      requires c.heapBegin + offsetBag == BagStart(c, 0, threadNum, bagNum)
      requires offsetShadowMem == StartShadow(c, threadNum, bagNum)
      modifies threadBag, this`guards
      ensures LaidOut(threadNum, bagNum + 1) && numBagObjects == NumObjects(c, bagNum)
    {
      var r := InitBag(c, threadNum, bagNum, classSize, shiftBits, offsetBag, offsetShadowMem);
      threadBag[threadNum, bagNum] := r;
      GuardFirstBags(r, threadNum, bagNum);
      BagIsFilled(c, bagNum);
      numBagObjects := r.numObjects;
    }

    /** The inner loop of `initialize`. */
    method LayOutThread(threadNum: nat, offsetBag0: nat, offsetShadowMem0: nat, numCumObjects0: nat)
        returns (offsetBag: nat, offsetShadowMem: nat, numCumObjects: nat)
      requires LaidOut(threadNum, 0) && threadNum < c.Threads()
      requires c.heapBegin + offsetBag0 == BagStart(c, 0, threadNum, 0)
      requires offsetShadowMem0 == StartShadow(c, threadNum, 0) && numCumObjects0 == threadNum * ObjectsPerThread(c)
      modifies threadBag, this`guards
      ensures LaidOut(threadNum, c.UsableBags())
      ensures offsetBag == offsetBag0 + c.UsableBags() * c.BagSize()
      ensures offsetShadowMem == StartShadow(c, threadNum, c.UsableBags())
      ensures numCumObjects == numCumObjects0 + ObjectsPerThread(c)
    {
      offsetBag, offsetShadowMem, numCumObjects := offsetBag0, offsetShadowMem0, numCumObjects0;
      var classSize, shiftBits := Pow2(MIN_BLOCK_BITS), MIN_BLOCK_BITS;
      for bagNum := 0 to c.UsableBags()
        invariant LaidOut(threadNum, bagNum)
        invariant classSize == ClassSize(bagNum) && shiftBits == MIN_BLOCK_BITS + bagNum
        invariant c.heapBegin + offsetBag == BagStart(c, 0, threadNum, bagNum)
        invariant offsetBag == offsetBag0 + bagNum * c.BagSize()
        invariant offsetShadowMem == StartShadow(c, threadNum, bagNum)
        invariant numCumObjects == numCumObjects0 + ObjectsBefore(c, bagNum)
      {
        var numBagObjects := LayOutBag(threadNum, bagNum, classSize, shiftBits, offsetBag, offsetShadowMem);
        NextBag(c, threadNum, bagNum);
        numCumObjects := numCumObjects + numBagObjects;
        offsetBag := offsetBag + c.BagSize();
        offsetShadowMem := offsetShadowMem + numBagObjects * SHADOW_INFO;
        shiftBits, classSize := shiftBits + 1, classSize * 2;
      }
    }

    /** The outer loop of `initialize`. */
    method LayOutBags() returns (numCumObjects: nat)
      requires c.Valid() && threadBag.Length0 == c.Threads() && threadBag.Length1 == c.UsableBags() && guards == {}
      modifies threadBag, this`guards
      ensures LaidOut(c.Threads(), 0) && numCumObjects == c.Threads() * ObjectsPerThread(c)
    {
      var offsetBag, offsetShadowMem := 0, 0;
      numCumObjects := 0;
      var unusableHeapSpace := (c.NumBags() - c.UsableBags()) * c.BagSize();
      FirstThread(c);
      for threadNum := 0 to c.Threads()
        invariant LaidOut(threadNum, 0)
        invariant c.heapBegin + offsetBag == BagStart(c, 0, threadNum, 0)
        invariant offsetShadowMem == StartShadow(c, threadNum, 0) && numCumObjects == threadNum * ObjectsPerThread(c)
      {
        offsetBag, offsetShadowMem, numCumObjects := LayOutThread(threadNum, offsetBag, offsetShadowMem, numCumObjects);
        NextThread(c, threadNum);
        offsetBag := offsetBag + unusableHeapSpace;
      }
    }

    /** The last loops of `initialize`. */
    method LinkShadowHeaps(numObjectsPerHeap: nat)
      requires LaidOut(c.Threads(), 0) && numObjectsPerHeap == c.Threads() * ObjectsPerThread(c)
      modifies threadBag
      ensures LaidOut(c.Threads(), 0)
      ensures forall x, y :: 0 <= x < c.Threads() && 0 <= y < c.UsableBags() ==>
        threadBag[x, y].nextShadowHeapObjectOffset == NextShadowHeapObjectOffset(c, y)
    {
      var shadowMemSizePerHeap := numObjectsPerHeap * SHADOW_INFO;
      var ceilBits := if shadowMemSizePerHeap < 2 then 0 else Log2(shadowMemSizePerHeap - 1) + 1;
      var ceil := Pow2(ceilBits);
      for threadNum := 0 to c.Threads()
        invariant LaidOut(c.Threads(), 0)
        invariant forall x, y :: 0 <= x < threadNum && 0 <= y < c.UsableBags() ==>
          threadBag[x, y].nextShadowHeapObjectOffset == NextShadowHeapObjectOffset(c, y)
      {
        for bagNum := 0 to c.UsableBags()
          invariant LaidOut(c.Threads(), 0)
          invariant forall x, y :: 0 <= x <= threadNum && 0 <= y < c.UsableBags() && (x < threadNum || y < bagNum) ==>
            threadBag[x, y].nextShadowHeapObjectOffset == NextShadowHeapObjectOffset(c, y)
        {
          var r := threadBag[threadNum, bagNum];
          assert FreshRecord(c, r, threadNum, bagNum);
          threadBag[threadNum, bagNum] :=
            r.(nextShadowHeapObjectOffset := ceil * SET_SIZE - (r.numObjects - 1) * SHADOW_INFO);
        }
      }
    }

    lemma BootFollows()
      requires LaidOut(c.Threads(), 0) && m == BOOT && shadow == map[] && mem == map[]
      requires forall x, y :: 0 <= x < c.Threads() && 0 <= y < c.UsableBags() ==>
        threadBag[x, y].nextShadowHeapObjectOffset == NextShadowHeapObjectOffset(c, y)
      ensures Follows()
    {
      forall g | g in guards ensures IsGuard(c, m.heap, g) {
        var l :| IsTrailingGuard(c, g, l) && l.heap < SET_SIZE;
      }
      forall it | ValidItem(c, it) ensures RecordFollows(c, threadBag[it.thread, it.bag], m.heap, it) {
        var r := threadBag[it.thread, it.bag];
        assert FreshRecord(c, r, it.thread, it.bag);
        assert AtFirstSlot(c, r.freelist[it.setItem], r.position[it.setItem], r.lastofCurBag[it.setItem], it);
      }
      forall s: Slot | ValidItem(c, s.item) && s.k <= Pos(m.heap, s.item) ensures BagGuarded(c, guards, s) {
        assert FirstBagsGuarded(c, guards, s.item.thread, s.item.bag);
        assert s == Slot(s.item, 0);
      }
    }

    /** The end of a call: the machine is quiet again. */
    ghost method Settle(m': System)
      requires Follows() && m'.heap == m.heap && GoodButBytes(c, m') && Quiet(m')
      modifies this`m
      ensures Orderly() && m == m'
    {
      m := m';
    }

    /** `initialize`: nested loops lay out the bags, and, once the size of the shadow is
        known, set the offsets between its heaps. */
    constructor Initialize(c: Config)
      requires c.Valid()
      ensures Valid() && this.c == c && m == BOOT && fresh(threadBag)
      ensures forall g <- guards :: IsFirstGuard(c, g)
    {
      this.c := c;
      threadBag := new PerThreadBag[c.Threads(), c.UsableBags()];
      shadow, mem, guards, m := map[], map[], {}, BOOT;
      new;
      var numCumObjects := LayOutBags();
      LinkShadowHeaps(numCumObjects);
      BootGood(c);
      GoodIsGoodButBytes(c, m);
      BootFollows();
      Settle(m);
    }

    /** The record of bag `(t, b)` has set item `i` standing at slot `s`. */
    ghost predicate StandsAt(t: nat, b: nat, i: nat, s: Slot)
      reads threadBag
    {
      && ValidItem(c, s.item) && s.item == Item(t, b, i)
      && t < threadBag.Length0 && b < threadBag.Length1
      && StaticFields(c, threadBag[t, b], t, b)
      && i < |threadBag[t, b].position| && i < |threadBag[t, b].lastofCurBag|
      && threadBag[t, b].position[i] == SlotAddr(c, s) && threadBag[t, b].lastofCurBag[i] == LastOf(c, s)
    }

    /** `incrementBumpPointer`. */
    method IncrementBumpPointer(t: nat, b: nat, i: nat, ghost s: Slot)
      requires StandsAt(t, b, i, s)
      modifies this`guards, threadBag
      ensures threadBag[t, b] == MovedTo(c, old(threadBag[t, b]), i, s.(k := s.k + 1))
      ensures guards == old(guards) + NewBagGuards(c, s)
      ensures forall x, y :: 0 <= x < threadBag.Length0 && 0 <= y < threadBag.Length1 && (x, y) != (t, b) ==>
        threadBag[x, y] == old(threadBag[x, y])
    {
      BumpGuards(c, s);
      var r := threadBag[t, b];
      if r.position[i] < r.lastofCurBag[i] {
        threadBag[t, b] := r.(position := r.position[i := r.position[i] + r.classSize]);
      } else {
        var position := r.position[i] + r.nextHeapObjectOffset;
        SetGuardPage(position, r.guardsize, r.guardoffset, LocOf(c, s.(k := s.k + 1)));
        var last := GetLastOfBag(c, position, r.guardoffset, r.classSize);
        threadBag[t, b] := r.(position := r.position[i := position], lastofCurBag := r.lastofCurBag[i := last]);
      }
    }

    /** `tryRandomGuardPage`, when its random number is below the cutoff. */
    method TryRandomGuardPage(t: nat, b: nat, i: nat, ghost s: Slot)
      requires StandsAt(t, b, i, s) && PageAligned(c, s)
      modifies this`guards, threadBag
      ensures threadBag[t, b] == MovedTo(c, old(threadBag[t, b]), i, Skipped(s))
      ensures guards == old(guards) + ({(SlotAddr(c, s), RandomGuardSize(b))} + NewBagGuards(c, Before(Skipped(s))))
      ensures forall x, y :: 0 <= x < threadBag.Length0 && 0 <= y < threadBag.Length1 && (x, y) != (t, b) ==>
        threadBag[x, y] == old(threadBag[x, y])
    {
      RandomGuardSteps(c, s);
      var r := threadBag[t, b];
      var saved := r.position[i];
      var guardSize := if r.classSize < PAGE then PAGE else r.classSize;
      if r.classSize < PAGE {
        var step := SmallPageStep(r.classSize, b);
        threadBag[t, b] := r.(position := r.position[i := r.position[i] + step]);
      }
      guards := guards + {(saved, guardSize)};
      IncrementBumpPointer(t, b, i, Before(Skipped(s)));
    }

    /** The bump pointer moves off slot `s`, and perhaps over a random guard. */
    method AdvanceRecord(t: nat, b: nat, i: nat, low: bool, ghost s: Slot)
      requires StandsAt(t, b, i, s)
      modifies this`guards, threadBag
      ensures threadBag[t, b] == MovedTo(c, old(threadBag[t, b]), i, AdvanceSlot(c, s, low))
      ensures guards == old(guards) + AdvanceGuards(c, s, low)
      ensures forall x, y :: 0 <= x < threadBag.Length0 && 0 <= y < threadBag.Length1 && (x, y) != (t, b) ==>
        threadBag[x, y] == old(threadBag[x, y])
    {
      IncrementBumpPointer(t, b, i, s);
      ghost var next := s.(k := s.k + 1);
      if threadBag[t, b].position[i] % PAGE == 0 {
        if low {
          TryRandomGuardPage(t, b, i, next);
          MovedTwice(c, old(threadBag[t, b]), i, next, Skipped(next));
        }
      }
    }

    /** The bump-pointer path of `allocateSmallObject`. */
    method TakeFromBump(t: nat, b: nat, i: nat, low: bool) returns (ptr: nat)
      requires Follows() && ValidItem(c, Item(t, b, i))
      modifies this`guards, this`m, threadBag
      ensures Follows()
      ensures m == old(m).(heap := Advance(c, old(m).heap, Item(t, b, i), low))
      ensures guards == old(guards) + AdvanceGuards(c, Slot(Item(t, b, i), Pos(old(m).heap, Item(t, b, i))), low)
      ensures ptr == SlotAddr(c, Slot(Item(t, b, i), Pos(old(m).heap, Item(t, b, i))))
      ensures Advanced(c, old(m).heap, m.heap, Item(t, b, i), low)
      ensures GuardsAdded(c, old(guards), guards, Slot(Item(t, b, i), Pos(old(m).heap, Item(t, b, i))),
        Pos(m.heap, Item(t, b, i)), low)
    {
      hide BytesInSlots, GuardsFollow, LinksEncoded, AdvanceGuards, AdvanceSlot, GuardOfNewBag, Advance, SlotAddr;
      ghost var it := Item(t, b, i);
      ghost var s, h := Slot(it, Pos(m.heap, it)), Advance(c, m.heap, it, low);
      assert RecordFollows(c, threadBag[t, b], m.heap, it);
      ptr := threadBag[t, b].position[i];
      AdvanceRecord(t, b, i, low, s);
      AdvancedGuards(c, m.heap, it, low, old(guards));
      AdvanceSlotPos(c, m.heap, it, low);
      AdvanceMeans(c, m.heap, it, low);
      GuardsMean(c, s, low);
      forall jt | ValidItem(c, jt) ensures RecordFollows(c, threadBag[jt.thread, jt.bag], h, jt) {
        assert RecordFollows(c, old(threadBag[jt.thread, jt.bag]), m.heap, jt);
        RecordMoved(c, old(threadBag[jt.thread, jt.bag]), m.heap, h, AdvanceSlot(c, s, low), jt);
      }
      m := m.(heap := h);
    }

    /** The free-list path of `allocateSmallObject`. */
    method TakeFromList(t: nat, b: nat, i: nat) returns (p: nat)
      requires Follows() && ValidItem(c, Item(t, b, i))
      requires ListOf(m.heap, Item(t, b, i)).next.To? && ListOf(m.heap, Item(t, b, i)).next.node.item == Item(t, b, i)
      modifies this`m, threadBag
      ensures Follows()
      ensures m == old(m).(heap := TakeHead(old(m).heap, Item(t, b, i)).0)
      ensures p == Ptr(c, TakeHead(old(m).heap, Item(t, b, i)).1)
    {
      hide BytesInSlots, GuardsFollow, LinksEncoded;
      ghost var it := Item(t, b, i);
      ghost var h := TakeHead(m.heap, it).0;
      var r := threadBag[t, b];
      assert RecordFollows(c, r, m.heap, it);
      RemoveEncoded(c, shadow, m.heap.link, ListOf(m.heap, it));
      var (d, head) := RemoveDLLHead(shadow, r.freelist[i]);
      p := head;
      threadBag[t, b] := r.(freelist := r.freelist[i := d]);
      SameBookkeeping(c, m.heap, h, guards);
      forall jt | ValidItem(c, jt) ensures RecordFollows(c, threadBag[jt.thread, jt.bag], h, jt) {
        assert RecordFollows(c, old(threadBag[jt.thread, jt.bag]), m.heap, jt);
        RecordRelinked(c, old(threadBag[jt.thread, jt.bag]), m.heap, h, it, jt);
      }
      m := m.(heap := h);
    }

    /** The records do not see links and bytes. */
    lemma SameRecords(h: Heap, h': Heap)
      requires c.Valid() && threadBag.Length0 == c.Threads() && threadBag.Length1 == c.UsableBags()
      requires h'.pos == h.pos && h'.list == h.list
      requires forall it :: ValidItem(c, it) ==> RecordFollows(c, threadBag[it.thread, it.bag], h, it)
      ensures forall it :: ValidItem(c, it) ==> RecordFollows(c, threadBag[it.thread, it.bag], h', it)
    {
      forall it | ValidItem(c, it) ensures RecordFollows(c, threadBag[it.thread, it.bag], h', it) {
        assert RecordFollows(c, threadBag[it.thread, it.bag], h, it);
      }
    }

    /** The canary of `allocateSmallObject`. */
    method Seal(t: nat, b: nat, ptr: nat, ghost s: Slot)
      requires Follows() && ValidItem(c, s.item) && s.item.thread == t && s.item.bag == b && ptr == SlotAddr(c, s)
      modifies this`m, this`mem
      ensures Follows() && m == old(m).(heap := WriteCanary(c, old(m).heap, s))
    {
      hide BytesInSlots;
      assert RecordFollows(c, threadBag[t, b], m.heap, s.item);
      SealAddresses(c, s);
      CanaryInSlot(c, mem, s);
      mem := mem[ptr + threadBag[t, b].classSize - 1 := CANARY_SENTINEL];
      ghost var h := WriteCanary(c, m.heap, s);
      SameBookkeeping(c, m.heap, h, guards);
      SameRecords(m.heap, h);
      m := m.(heap := h);
    }

    /** The sentinel. */
    method Mark(t: nat, b: nat, ptr: nat, ghost s: Slot)
      requires Follows() && ValidItem(c, s.item) && s.item.thread == t && s.item.bag == b && ptr == SlotAddr(c, s)
      modifies this`m, this`shadow
      ensures Follows() && m == old(m).(heap := MarkAllocated(old(m).heap, s))
    {
      hide BytesInSlots, GuardsFollow, RecordFollows, LinksEncoded, GetShadowInBag, SlotAddr, SlotShadow;
      SealAddresses(c, s);
      WriteEncoded(c, shadow, m.heap.link, s, Sentinel);
      var shadowinfo := GetShadowInBag(c, ptr, t, b);
      shadow := shadow[shadowinfo := Sentinel];
      ghost var h := MarkAllocated(m.heap, s);
      SameBookkeeping(c, m.heap, h, guards);
      SameRecords(m.heap, h);
      m := m.(heap := h);
    }

    /** The end of `allocateSmallObject`: canary, then sentinel. */
    method SealAndMark(t: nat, b: nat, ptr: nat, ghost s: Slot)
      requires Follows() && ValidItem(c, s.item) && s.item.thread == t && s.item.bag == b && ptr == SlotAddr(c, s)
      modifies this`m, this`mem, this`shadow
      ensures Follows()
      ensures m == old(m).(heap := MarkAllocated(WriteCanary(c, old(m).heap, s), s))
    {
      hide BibopHeap.Follows;
      Seal(t, b, ptr, s);
      Mark(t, b, ptr, s);
    }

    /** `FREELIST_INSERT` under the lock, at the end of `freeSmallObject`. */
    method InsertAtTail(t: nat, b: nat, i: nat, p: nat, ghost s: Slot)
      requires Follows() && ValidItem(c, s.item) && s.item == Item(t, b, i) && p == Ptr(c, s)
      requires ListOf(m.heap, s.item).prev.To? ==> ValidItem(c, ListOf(m.heap, s.item).prev.node.item)
      modifies this`m, this`shadow, threadBag
      ensures Follows()
      ensures m == old(m).(heap := PutTail(old(m).heap, s))
    {
      hide BytesInSlots, GuardsFollow, LinksEncoded;
      ghost var it, h := s.item, PutTail(m.heap, s);
      var r := threadBag[t, b];
      assert RecordFollows(c, r, m.heap, it);
      InsertEncoded(c, shadow, m.heap.link, ListOf(m.heap, it), s);
      var (cells, d) := InsertDLLTail(shadow, r.freelist[i], p);
      shadow := cells;
      threadBag[t, b] := r.(freelist := r.freelist[i := d]);
      SameBookkeeping(c, m.heap, h, guards);
      forall jt | ValidItem(c, jt) ensures RecordFollows(c, threadBag[jt.thread, jt.bag], h, jt) {
        assert RecordFollows(c, old(threadBag[jt.thread, jt.bag]), m.heap, jt);
        RecordRelinked(c, old(threadBag[jt.thread, jt.bag]), m.heap, h, it, jt);
      }
      m := m.(heap := h);
    }

    /** The slot `allocateSmallObject` picks: the oldest free one, or the next new one. */
    method PickSlot(t: nat, b: nat, i: nat, useBumpPointer: bool, low: bool) returns (ptr: nat)
      requires Follows() && ValidItem(c, Item(t, b, i))
      requires var d := ListOf(m.heap, Item(t, b, i)); d.next.Null? || (d.next.To? && d.next.node.item == Item(t, b, i))
      modifies this`m, this`guards, threadBag
      ensures Follows()
      ensures var it, h := Item(t, b, i), old(m).heap;
        && ptr == SlotAddr(c, MallocSlot(h, it, useBumpPointer))
        && m == old(m).(heap :=
             if ListOf(h, it).next.To? && !useBumpPointer then TakeHead(h, it).0 else Advance(c, h, it, low))
        && guards == old(guards) + NewGuards(c, h, it, useBumpPointer, low)
    {
      assert RecordFollows(c, threadBag[t, b], m.heap, Item(t, b, i));
      if !IsDLLEmpty(threadBag[t, b].freelist[i]) && !useBumpPointer {
        ghost var s := MallocSlot(m.heap, Item(t, b, i), false);
        var p := TakeFromList(t, b, i);
        ShadowToAddr(c, LocOf(c, s));
        ptr := GetAddrFromShadowInfo(c, p, t, b);
      } else {
        ptr := TakeFromBump(t, b, i, low);
      }
    }

    /** The record's bump pointer stands where the machine says. */
    lemma PositionOf(it: Item)
      requires Follows() && ValidItem(c, it)
      ensures it.thread < threadBag.Length0 && it.bag < threadBag.Length1
      ensures |threadBag[it.thread, it.bag].position| == SET_SIZE
      ensures threadBag[it.thread, it.bag].position[it.setItem] == SlotAddr(c, Slot(it, Pos(m.heap, it)))
    {
      assert RecordFollows(c, threadBag[it.thread, it.bag], m.heap, it);
    }

    /** `allocateSmallObject`. `random` is the draw that picks the set item and the odds of
        bumping; `low` says that the draw for a random guard fell below its cutoff. */
    method AllocateSmallObject(t: Tid, threadIndex: nat, size: nat, random: nat, low: bool)
        returns (ptr: nat, ghost s: Slot)
      requires Orderly() && Enabled(c, m, CallMalloc(t, size, random)) && threadIndex == m.threads.running[t]
      modifies this`m, this`mem, this`shadow, this`guards, threadBag
      ensures ValidItem(c, s.item)
      ensures s == MallocSlot(old(m).heap, s.item, random % RANDOMIZER == 0)
      ensures m == At(old(m), t, Idle, map[], MallocHeap(c, old(m).heap, s.item, random % RANDOMIZER == 0, low),
        old(m).live + {s})
      ensures ptr == SlotAddr(c, s) && s !in old(m).live
      ensures guards == old(guards) + NewGuards(c, old(m).heap, s.item, random % RANDOMIZER == 0, low)
      ensures s.item.thread == threadIndex && s.item.bag == BagFor(size) && s.item.setItem == random % SET_SIZE
      // the oldest free slot, or the next new one; its canary is written, and it is marked
      ensures var d := ListOf(old(m).heap, s.item);
        s == if d.next.To? && random % RANDOMIZER != 0 then d.next.node else Slot(s.item, Pos(old(m).heap, s.item))
      ensures m.heap.mem == old(m).heap.mem[ptr + ClassSize(s.item.bag) - 1 := CANARY_SENTINEL]
      ensures m.heap.link == old(m).heap.link[s := Sentinel]
      // a free slot leaves the bump pointer, the slots given up and the guards as they are
      ensures ListOf(old(m).heap, s.item).next.To? && random % RANDOMIZER != 0 ==>
        Pos(m.heap, s.item) == Pos(old(m).heap, s.item) && m.heap.skipped == old(m).heap.skipped
        && guards == old(guards)
      // a new one moves it on, and over a random guard
      ensures !(ListOf(old(m).heap, s.item).next.To? && random % RANDOMIZER != 0) ==>
        Advanced(c, old(m).heap, m.heap, s.item, low)
        && GuardsAdded(c, old(guards), guards, s, Pos(m.heap, s.item), low)
      ensures s.item.bag < threadBag.Length1 && threadIndex < threadBag.Length0
      ensures var positions := threadBag[threadIndex, s.item.bag].position;
        |positions| == SET_SIZE && positions[s.item.setItem] == SlotAddr(c, Slot(s.item, Pos(m.heap, s.item)))
      ensures Orderly() && (old(Good(c, m)) ==> Good(c, m))
    {
      hide NewGuards, AddrOf, LocOf, ClassSizeFor, BagNum, BibopHeap.Follows, Good, Quiet, TakeHead, Advance;
      BagForFits(c, size);
      var classSize := ClassSizeFor(WithCanary(size));
      var bagNum: nat := BagNum(classSize);
      var setItem := random % SET_SIZE;
      var useBumpPointer := random % RANDOMIZER == 0;
      ghost var it, m0 := Item(threadIndex, bagNum, setItem), m;
      OwnSlotsStill(c, m, it);
      MallocStillQuiet(c, m, t, size, random, low, it);
      s := MallocSlot(m.heap, it, useBumpPointer);
      AllocationMeans(c, m.heap, it, useBumpPointer, low, guards);
      ptr := PickSlot(threadIndex, bagNum, setItem, useBumpPointer, low);
      SealAndMark(threadIndex, bagNum, ptr, s);
      PositionOf(it);
      Settle(At(m0, t, Idle, map[], m.heap, m0.live + {s}));
    }

    /** `getNextCanaryNeighbor` from the record's own fields. */
    method NextCanaryNeighbor(r: PerThreadBag, shadowinfo: nat, move: Direction, ghost it: Item)
        returns (n: Option<int>)
      requires ValidItem(c, it) && StaticFields(c, r, it.thread, it.bag) && c.shadowBegin <= shadowinfo
      requires r.nextShadowHeapObjectOffset == NextShadowHeapObjectOffset(c, it.bag)
      ensures n == GetNextCanaryNeighbor(c, shadowinfo, it.thread, it.bag, move)
    {
      var heapNum := ShadowHeap(c, shadowinfo);
      var objectindex := (Mask(shadowinfo - c.shadowBegin, ShadowCeilBits(c)) - r.startShadowMemOffset) / SHADOW_INFO;
      if move == Left {
        if objectindex == 0 {
          if heapNum < SET_SIZE {
            return None;
          }
          n := Some(shadowinfo - r.nextShadowHeapObjectOffset);
        } else {
          n := Some(shadowinfo - SHADOW_INFO);
        }
      } else {
        if objectindex == r.lastObjectIndex {
          n := Some(shadowinfo + r.nextShadowHeapObjectOffset);
        } else {
          n := Some(shadowinfo + SHADOW_INFO);
        }
      }
    }

    /** Is the canary of a slot in order, if the slot is in use? */
    method NeighborIntact(r: PerThreadBag, canaryShadow: nat, ghost s: Slot) returns (intact: bool)
      requires Follows() && ValidItem(c, s.item) && canaryShadow == SlotShadow(c, s)
      requires StaticFields(c, r, s.item.thread, s.item.bag)
      ensures intact <==> !(Next(shadow, canaryShadow) == Sentinel && Byte(mem, CanaryAddr(c, s)) != CANARY_SENTINEL)
    {
      hide BytesInSlots, LinksEncoded, GuardsFollow;
      ShadowToAddr(c, LocOf(c, s));
      SealAddresses(c, s);
      var neighborAddr := GetAddrFromShadowInfo(c, canaryShadow, r.threadIndex, r.bagNum);
      var canary: nat := neighborAddr + r.classSize - 1;
      intact := Next(shadow, canaryShadow) != Sentinel || Byte(mem, canary) == CANARY_SENTINEL;
    }

    /** Up to two neighbours on one side, as far as there are any. */
    method CheckSide(r: PerThreadBag, shadowinfo: nat, move: Direction, ghost s: Slot) returns (intact: bool)
      requires Follows() && ValidItem(c, s.item) && shadowinfo == SlotShadow(c, s)
      requires StaticFields(c, r, s.item.thread, s.item.bag)
      requires r.nextShadowHeapObjectOffset == NextShadowHeapObjectOffset(c, s.item.bag)
      ensures intact <==> forall n: Slot | n.item == s.item
        && (if move == Left then n.k + 1 == s.k || n.k + 2 == s.k else n.k == s.k + 1 || n.k == s.k + 2)
        :: !Broken(c, shadow, mem, n)
    {
      hide BibopHeap.Follows, StaticFields, NextShadowHeapObjectOffset, SlotShadow, CanaryAddr;
      var canaryShadow: nat := shadowinfo;
      ghost var at := s;
      for pos := 0 to 2
        invariant at.item == s.item && canaryShadow == SlotShadow(c, at)
        invariant if move == Left then at.k + pos == s.k else at.k == s.k + pos
        invariant forall n: Slot | n.item == s.item
          && (if move == Left then at.k <= n.k < s.k else s.k < n.k <= at.k) :: !Broken(c, shadow, mem, n)
      {
        NeighbourIsAdjacent(c, at);
        var n := NextCanaryNeighbor(r, canaryShadow, move, s.item);
        if n.None? {
          break;
        }
        at := at.(k := if move == Left then at.k - 1 else at.k + 1);
        canaryShadow := n.value;
        var ok := NeighborIntact(r, canaryShadow, at);
        if !ok {
          assert Broken(c, shadow, mem, at);
          return false;
        }
      }
      return true;
    }

    /** The walk over two neighbours on either side finds out whether the canary of one in use
        has been overwritten. */
    method CheckNeighbors(r: PerThreadBag, shadowinfo: nat, ghost s: Slot) returns (intact: bool)
      requires Follows() && ValidItem(c, s.item) && shadowinfo == SlotShadow(c, s)
      requires StaticFields(c, r, s.item.thread, s.item.bag)
      requires r.nextShadowHeapObjectOffset == NextShadowHeapObjectOffset(c, s.item.bag)
      ensures intact <==> forall n: Slot |
        n.item == s.item && (n.k + 1 == s.k || n.k + 2 == s.k || n.k == s.k + 1 || n.k == s.k + 2)
        :: !(Next(shadow, Ptr(c, n)) == Sentinel && Byte(mem, CanaryAddr(c, n)) != CANARY_SENTINEL)
    {
      hide BibopHeap.Follows, StaticFields, NextShadowHeapObjectOffset, SlotShadow, CanaryAddr, Ptr;
      intact := true;
      for side := 0 to 2
        invariant intact
        invariant forall n: Slot | n.item == s.item
          && ((side > 0 && (n.k + 1 == s.k || n.k + 2 == s.k)) || (side > 1 && (n.k == s.k + 1 || n.k == s.k + 2)))
          :: !Broken(c, shadow, mem, n)
      {
        var ok := CheckSide(r, shadowinfo, if side == 0 then Left else Right, s);
        if !ok {
          return false;
        }
      }
      forall n: Slot | n.item == s.item && (n.k + 1 == s.k || n.k + 2 == s.k || n.k == s.k + 1 || n.k == s.k + 2)
        ensures !(Next(shadow, Ptr(c, n)) == Sentinel && Byte(mem, CanaryAddr(c, n)) != CANARY_SENTINEL)
      {
        assert !Broken(c, shadow, mem, n);
      }
    }

    /** The sentinel test: for a slot, `isObjectFree` answers whether no client holds it. */
    method IsObjectFree(t: Tid, shadowinfo: nat, ghost where: Address) returns (free: bool)
      requires Orderly()
      requires where.AtSlot? ==> Enabled(c, m, CallFree(t, where.s)) && shadowinfo == SlotShadow(c, where.s)
      ensures free <==> Next(shadow, shadowinfo) != Sentinel
      ensures where.AtSlot? ==> (free <==> where.s !in m.live)
    {
      if where.AtSlot? {
        FreeStillAcceptsLive(c, m, t, where.s);
        assert Next(shadow, Ptr(c, where.s)) == EncodeLink(c, Next(m.heap.link, where.s));
      }
      free := Next(shadow, shadowinfo) != Sentinel;
    }

    /** The locked part of `freeSmallObject`. */
    method ReleaseSlot(t: Tid, thread: nat, bag: nat, setItem: nat, shadowinfo: nat, ghost s: Slot)
      requires Orderly() && Enabled(c, m, CallFree(t, s)) && s in m.live
      requires s.item == Item(thread, bag, setItem) && shadowinfo == SlotShadow(c, s)
      modifies this`m, this`shadow, threadBag
      ensures Orderly() && m == At(old(m), t, Idle, map[], PutTail(old(m).heap, s), old(m).live - {s})
      ensures QueuedLast(old(m).heap, m.heap, s)
      ensures old(Good(c, m)) ==> Good(c, m)
    {
      hide Good, GoodButBytes, BibopHeap.Follows;
      ghost var m0 := m;
      OwnSlotsStill(c, m, s.item);
      PutQueuesLast(m.heap, s);
      FreeStillQuiet(c, m, t, s);
      InsertAtTail(thread, bag, setItem, shadowinfo, s);
      Settle(At(m0, t, Idle, map[], m.heap, m0.live - {s}));
    }

    /** `classSize` of a record: zero in those of unusable bags, which nothing ever writes. */
    method RecordClassSize(thread: nat, bag: nat) returns (classSize: nat)
      requires Follows() && thread < c.Threads()
      ensures classSize == if bag < c.UsableBags() then ClassSize(bag) else 0
    {
      if bag >= c.UsableBags() {
        return 0;
      }
      assert RecordFollows(c, threadBag[thread, bag], m.heap, Item(thread, bag, 0));
      classSize := threadBag[thread, bag].classSize;
    }

    /** The canary of the freed address itself: for a slot its own, behind the last object, where
        nothing was ever written, never right, and in an unusable bag the byte before. */
    method OwnCanaryIntact(addr: nat, thread: nat, bag: nat, ghost where: Address) returns (intact: bool)
      requires Follows() && Names(c, addr, where)
      requires where.AtSlot? ==> where.s.item.thread == thread && where.s.item.bag == bag
      requires !where.AtSlot? ==> where.thread == thread && where.bag == bag
      requires !where.Inside?
      ensures where.Unusable? ==> (intact <==> ByteBefore(mem, addr) == CANARY_SENTINEL)
      ensures where.AtSlot? ==> (intact <==> Byte(mem, CanaryAddr(c, where.s)) == CANARY_SENTINEL)
      ensures where.Behind? ==> !intact
    {
      hide BytesInSlots, GuardsFollow, LinksEncoded;
      if where.AtSlot? {
        SealAddresses(c, where.s);
      } else if where.Behind? {
        BehindUntouched(c, mem, addr, where);
      } else {
        DecodeUnusable(c, addr, where);
      }
      var classSize := RecordClassSize(thread, bag);
      intact := Byte(mem, addr + classSize - 1) == CANARY_SENTINEL;
    }

    /** The canaries of a slot's neighbours. */
    method NeighborsIntact(thread: nat, bag: nat, shadowinfo: nat, ghost s: Slot) returns (intact: bool)
      requires Follows() && ValidItem(c, s.item) && shadowinfo == SlotShadow(c, s)
      requires s.item.thread == thread && s.item.bag == bag
      requires Byte(mem, CanaryAddr(c, s)) == CANARY_SENTINEL
      ensures intact <==> !Damage(c, shadow, mem, s)
    {
      var r := threadBag[thread, bag];
      assert RecordFollows(c, r, m.heap, s.item);
      intact := CheckNeighbors(r, shadowinfo, s);
    }

    /** `getShadowObjectInfo` on the addresses of `where`. */
    method Decode(addr: nat, ghost where: Address) returns (info: Decoded)
      requires c.Valid() && Names(c, addr, where)
      ensures where.Inside? <==> info.Misaligned?
      ensures where.AtSlot? ==> var it := where.s.item;
        info == Object(it.thread, it.bag, it.setItem, SlotShadow(c, where.s))
      ensures where.Behind? ==> info == Object(where.thread, where.bag, where.heap % SET_SIZE, EntryBehind(c, where))
      ensures where.Unusable? ==>
        info == Object(where.thread, where.bag, where.heap % SET_SIZE, EntryUnusable(c, where))
    {
      hide GetShadowObjectInfo, BagOfAddr, SlotAddr, SlotShadow;
      if where.AtSlot? {
        DecodeSlot(c, where.s);
      } else if where.Behind? {
        DecodeBehind(c, addr, where);
      } else if where.Unusable? {
        DecodeUnusable(c, addr, where);
      } else {
        DecodeMisaligned(c, where.heap, where.thread, where.bag, where.offset);
      }
      info := GetShadowObjectInfo(c, addr);
    }

    /** `getObjectSize`: the usable size of the bag's class, or what a class size of zero
        less the canary wraps to. */
    method GetObjectSize(addr: nat, ghost where: Address) returns (size: nat)
      requires Follows() && Names(c, addr, where) && !where.Inside?
      ensures size == match where
        case AtSlot(s) => ClassSize(s.item.bag) - 1
        case Unusable(_, _, _, _) => SIZE_LIMIT - 1
        case Behind(_, _, bag, _) => ClassSize(bag) - 1
        case Inside(_, _, _, _) => 0
    {
      var info := Decode(addr, where);
      var classSize := RecordClassSize(info.thread, info.bag);
      size := if classSize == 0 then SIZE_LIMIT - 1 else classSize - 1;
    }

    lemma ConfigValid()
      requires Follows()
      ensures c.Valid()
    {
    }

    /** With clients that stay inside their objects there is nothing to find. */
    lemma Undamaged(s: Slot)
      requires Valid() && s in m.live
      ensures !Damage(c, shadow, mem, s)
    {
      hide GuardsFollow, BytesInSlots, Quiet;
      LiveSealed(c, m, s);
      SealedSlots(c, m);
      forall n: Slot | n.item == s.item ensures !Broken(c, shadow, mem, n) {
        assert Next(shadow, Ptr(c, n)) == EncodeLink(c, Next(m.heap.link, n));
      }
    }

    /** `freeSmallObject` on any address, whatever bytes clients have written: it frees exactly
        the live slots without damage around them, and changes nothing otherwise. Behind the
        last object the sentinel test looks at an entry that is not the address's own, but the
        canary stops it then: that byte was never written, and it lies in a guard page wherever
        the bag is in use. In an unusable bag the tests may pass (`AstrayExactly`), and the
        free goes on with an empty record. */
    method FreeSmallObject(t: Tid, addr: nat, ghost where: Address) returns (r: FreeResult)
      requires Orderly() && Names(c, addr, where)
      requires where.AtSlot? ==> Enabled(c, m, CallFree(t, where.s))
      modifies this`m, this`shadow, threadBag
      ensures where.AtSlot? ==> SlotDecided(c, old(m).live, old(shadow), mem, where.s, r)
      ensures r == FreeReport(c, old(m).live, old(shadow), mem, where) && (r != Freed ==> shadow == old(shadow))
      ensures m == if r != Freed then old(m)
        else At(old(m), t, Idle, map[], PutTail(old(m).heap, where.s), old(m).live - {where.s})
      ensures r == Freed ==> QueuedLast(old(m).heap, m.heap, where.s)
      ensures Orderly() && (old(Good(c, m)) ==> Good(c, m))
    {
      hide Good, GoodButBytes, BibopHeap.Follows, SlotAddr, SlotShadow, PutTail;
      ConfigValid();
      var info := Decode(addr, where);
      if info.Misaligned? {
        return MisalignedFree;
      }
      var free := IsObjectFree(t, info.shadow, where);
      if free {
        return DoubleFree;
      }
      var intact := OwnCanaryIntact(addr, info.thread, info.bag, where);
      if !intact {
        return DamagedCanary;
      }
      if info.bag >= c.UsableBags() {
        return Astray;
      }
      intact := NeighborsIntact(info.thread, info.bag, info.shadow, where.s);
      if !intact {
        return DamagedCanary;
      }
      ReleaseSlot(t, info.thread, info.bag, info.setItem, info.shadow, where.s);
      r := Freed;
    }

    /** The one way astray: the first address behind a last usable bag that ends with an object
        which has been handed out, while the first slot of the whole heap is in use. */
    lemma AstrayExactly(addr: nat, where: Address)
      requires Follows() && where.Unusable? && Names(c, addr, where)
      ensures FreeReport(c, m.live, shadow, mem, where) == Astray
        <==> (where.bag == c.UsableBags() && where.offset == 0 && c.bagBits == c.largeBits
              && !ObjectFree(m.heap, FirstOfBag(c, where.heap, 0, 0))
              && CanaryIntact(c, m.heap, FirstOfBag(c, where.heap, where.thread, where.bag - 1)))
    {
      hide GuardsFollow, Good, Quiet, SlotAddr, SlotShadow, RecordFollows, CanaryAddr, FirstOfBag;
      DecodeUnusable(c, addr, where);
      if ByteBefore(mem, addr) == CANARY_SENTINEL {
        var s :| Owns(c, s, addr - 1);
        ByteBeforeUnusable(c, s, addr, where);
      }
      if where.bag == c.UsableBags() && where.offset == 0 && c.bagBits == c.largeBits {
        EntryOfFirst(c, where);
        CanaryOfLast(c, addr, where);
        var first := FirstOfBag(c, where.heap, 0, 0);
        assert Next(shadow, Ptr(c, first)) == EncodeLink(c, Next(m.heap.link, first));
      }
    }

    method WriteByte(a: nat, value: int, ghost s: Slot)
      requires Follows() && Owns(c, s, a)
      modifies this`m, this`mem
      ensures Follows() && m == old(m).(heap := old(m).heap.(mem := old(m).heap.mem[a := value]))
    {
      hide BytesInSlots, GuardsFollow, RecordFollows, LinksEncoded;
      ByteOfSlot(c, mem, s, a, value);
      mem := mem[a := value];
      ghost var h := m.heap.(mem := mem);
      SameBookkeeping(c, m.heap, h, guards);
      SameRecords(m.heap, h);
      m := m.(heap := h);
    }

    /** A client writes any byte of any slot, its own or not, canary or not. */
    method ClientOverwrite(a: nat, value: int, ghost s: Slot)
      requires Orderly() && Owns(c, s, a)
      modifies this`m, this`mem
      ensures Orderly() && m == old(m).(heap := old(m).heap.(mem := old(m).heap.mem[a := value]))
    {
      hide Good, BibopHeap.Follows, SlotAddr;
      ghost var m' := m.(heap := m.heap.(mem := m.heap.mem[a := value]));
      ghost var g := Restored(c, m);
      WriteByte(a, value, s);
      FromRestored(c, m', g);
      assert forall u :: PCOf(m', u) == PCOf(g, u);
      Settle(m');
    }

    /** A client writes one byte of the usable part of a live object. */
    method ClientStore(ghost s: Slot, ptr: nat, offset: nat, value: int)
      requires Orderly() && s in m.live && offset + 1 < ClassSize(s.item.bag) && ptr == UserAddr(c, s)
      modifies this`m, this`mem
      ensures Orderly() && (old(Good(c, m)) ==> Good(c, m))
      ensures m == old(m).(heap := old(m).heap.(mem := old(m).heap.mem[ptr + offset := value]))
    {
      hide Good, GoodButBytes, BibopHeap.Follows, SlotAddr;
      ghost var m' := m.(heap := m.heap.(mem := m.heap.mem[ptr + offset := value]));
      LiveStillValid(c, m, s);
      if Good(c, m) { StoredQuietly(c, m, m', s, ptr, offset, value); }
      ClientOverwrite(ptr + offset, value, s);
    }

    /** Threads come and go between calls. */
    ghost method ThreadMoves(e: Event)
      requires Orderly() && Enabled(c, m, ThreadEvent(e))
      modifies this`m
      ensures Orderly() && m == old(m).(threads := Threads.Apply(old(m).threads, e))
      ensures old(Good(c, m)) ==> Good(c, m)
    {
      hide BibopHeap.Follows, Good, GoodButBytes;
      StepKeepsButBytes(c, m, ThreadEvent(e));
      if Good(c, m) { StepKeeps(c, m, ThreadEvent(e)); }
      ghost var m' := m.(threads := Threads.Apply(m.threads, e));
      assert forall u :: PCOf(m', u) == PCOf(m, u);
      Settle(m');
    }

    /** Every live object is apart from every other one and from every protected range. */
    lemma LiveObjectsApart(s: Slot)
      requires Follows() && GoodButBytes(c, m) && s in m.live
      ensures ValidItem(c, s.item)
      ensures forall r <- m.live :: r != s ==>
        ValidItem(c, r.item) && Disjoint(SlotAddr(c, s), ClassSize(s.item.bag), SlotAddr(c, r), ClassSize(r.item.bag))
      ensures forall g <- guards :: Disjoint(SlotAddr(c, s), ClassSize(s.item.bag), g.0, g.1)
    {
      var g := Restored(c, m);
      var P := PlacesOf(c, g);
      SamePlacesMatch(c, m, g, P);
      assert PlaceOf(P, s) == Live;
      forall r <- m.live | r != s
        ensures ValidItem(c, r.item)
        ensures Disjoint(SlotAddr(c, s), ClassSize(s.item.bag), SlotAddr(c, r), ClassSize(r.item.bag))
      {
        assert PlaceOf(P, r) == Live;
        SlotsDisjoint(c, s, r);
      }
      forall g <- guards ensures Disjoint(SlotAddr(c, s), ClassSize(s.item.bag), g.0, g.1) {
        GuardApart(c, m, g, s, P);
      }
    }
  }
}
