/** The slots of one set item, numbered 0, 1, 2, … through the heaps it uses, and the
    code that steps from one slot to another: the bump pointer, the canary walk, random
    guard pages and size classes. */
module Slots {
  import opened Arithmetic
  import opened Layout
  import opened Options

  /** One of the `SET_SIZE` alternatives a thread's bag allocates from. */
  datatype Item = Item(thread: nat, bag: nat, setItem: nat)

  datatype Slot = Slot(item: Item, k: nat)

  ghost predicate ValidItem(c: Config, it: Item) {
    c.Valid() && it.thread < c.Threads() && it.bag < c.UsableBags() && it.setItem < SET_SIZE
  }

  function PerBag(c: Config, it: Item): (n: nat)
    requires ValidItem(c, it)
    ensures n >= 1
  {
    BagIsFilled(c, it.bag);
    NumObjects(c, it.bag)
  }

  /** Slot `k` of item `it` lives in heap `setItem + 4 * (k / n)`. */
  function LocOf(c: Config, s: Slot): (l: Loc)
    requires ValidItem(c, s.item)
    ensures ValidLoc(c, l)
  {
    var n := PerBag(c, s.item);
    Loc(s.item.setItem + SET_SIZE * (s.k / n), s.item.thread, s.item.bag, s.k % n)
  }

  /** The slot found at a location. */
  function SlotAt(c: Config, l: Loc): (s: Slot)
    requires ValidLoc(c, l)
    ensures ValidItem(c, s.item)
  {
    var it := Item(l.thread, l.bag, l.heap % SET_SIZE);
    Slot(it, l.heap / SET_SIZE * PerBag(c, it) + l.idx)
  }

  function SlotAddr(c: Config, s: Slot): nat
    requires ValidItem(c, s.item)
  {
    AddrOf(c, LocOf(c, s))
  }

  function SlotShadow(c: Config, s: Slot): nat
    requires ValidItem(c, s.item)
  {
    ShadowOf(c, LocOf(c, s))
  }

  /** `lastofCurBag` while the bump pointer is at slot `s`. */
  function LastOf(c: Config, s: Slot): nat
    requires ValidItem(c, s.item)
  {
    AddrOf(c, LocOf(c, s).(idx := PerBag(c, s.item) - 1))
  }

  /** Every location is a slot of exactly one item. */
  lemma SlotLocRoundTrip(c: Config, s: Slot)
    requires ValidItem(c, s.item)
    ensures SlotAt(c, LocOf(c, s)) == s
  {
    var n := PerBag(c, s.item);
    assert LocOf(c, s).heap / SET_SIZE == s.k / n;
  }

  lemma LocSlotRoundTrip(c: Config, l: Loc)
    requires ValidLoc(c, l)
    ensures LocOf(c, SlotAt(c, l)) == l
  {
    var n := PerBag(c, SlotAt(c, l).item);
    DivModUnique(l.heap / SET_SIZE * n + l.idx, n, l.heap / SET_SIZE, l.idx);
  }

  lemma SlotShadowInjective(c: Config, s: Slot, r: Slot)
    requires ValidItem(c, s.item) && ValidItem(c, r.item)
    requires SlotShadow(c, s) == SlotShadow(c, r)
    ensures s == r
  {
    ShadowInjective(c, LocOf(c, s), LocOf(c, r));
    SlotLocRoundTrip(c, s);
    SlotLocRoundTrip(c, r);
  }

  // ------------------------------------------------------------ the bump pointer

  /** `getLastOfBag`. */
  function GetLastOfBag(c: Config, start: nat, guardoffset: nat, classSize: nat): int {
    start + c.BagSize() - guardoffset - classSize
  }

  function NextHeapObjectOffset(c: Config, bag: nat): int
    requires c.Valid()
  {
    c.HeapSize() * (SET_SIZE - 1) + (c.HeapSize() - c.BagSize() + ClassSize(bag) + GuardOffset(c, bag))
  }

  /** `incrementBumpPointer` on the values of `position` and `lastofCurBag`. */
  function Bump(c: Config, bag: nat, position: int, lastof: int): (int, int)
    requires c.Valid()
  {
    if position < lastof then (position + ClassSize(bag), lastof)
    else
      var next := position + NextHeapObjectOffset(c, bag);
      (next, next + c.BagSize() - GuardOffset(c, bag) - ClassSize(bag))
  }

  /** Successor in the numbering: the same heap while the bag lasts, then four heaps on. */
  lemma NextLoc(c: Config, s: Slot)
    requires ValidItem(c, s.item)
    ensures var l, m, n := LocOf(c, s), LocOf(c, s.(k := s.k + 1)), PerBag(c, s.item);
      if l.idx + 1 < n then m == l.(idx := l.idx + 1)
      else m == l.(heap := l.heap + SET_SIZE, idx := 0)
  {
    var n := PerBag(c, s.item);
    var q, i := s.k / n, s.k % n;
    if i + 1 < n {
      DivModUnique(s.k + 1, n, q, i + 1);
    } else {
      assert s.k + 1 == (q + 1) * n by { MulDistrib(q, 1, n); }
      DivModUnique(s.k + 1, n, q + 1, 0);
    }
  }

  lemma BagStartNextHeap(c: Config, heap: nat, thread: nat, bag: nat)
    ensures BagStart(c, heap + SET_SIZE, thread, bag) == BagStart(c, heap, thread, bag) + SET_SIZE * c.HeapSize()
  {
    GlobalBagSplit(c, heap + SET_SIZE, thread, bag);
    GlobalBagSplit(c, heap, thread, bag);
    MulDistrib(heap, SET_SIZE, c.HeapSize());
  }

  /** Where the last object of a location's bag starts. */
  ghost function LastInBag(c: Config, l: Loc): int
    requires ValidLoc(c, l)
  {
    AddrOf(c, l.(idx := NumObjects(c, l.bag) - 1))
  }

  lemma BumpInBag(c: Config, l: Loc)
    requires ValidLoc(c, l) && l.idx + 1 < NumObjects(c, l.bag)
    ensures Bump(c, l.bag, AddrOf(c, l), LastInBag(c, l)) == (AddrOf(c, l.(idx := l.idx + 1)), LastInBag(c, l))
    ensures AddrOf(c, l) < LastInBag(c, l)
  {
    hide NumObjects, Pow2, BagStart;
    MulGap(l.idx, NumObjects(c, l.bag) - 1, ClassSize(l.bag));
    MulDistrib(l.idx, 1, ClassSize(l.bag));
  }

  lemma BumpToNextHeap(c: Config, l: Loc)
    requires ValidLoc(c, l) && l.idx + 1 == NumObjects(c, l.bag)
    ensures var m := l.(heap := l.heap + SET_SIZE, idx := 0);
      Bump(c, l.bag, AddrOf(c, l), LastInBag(c, l)) == (AddrOf(c, m), LastInBag(c, m))
    ensures AddrOf(c, l) == LastInBag(c, l)
  {
    hide NumObjects, Pow2, BagStart;
    var n, cs := NumObjects(c, l.bag), ClassSize(l.bag);
    BagIsFilled(c, l.bag);
    MulDistrib(n - 1, 1, cs);
    BagStartNextHeap(c, l.heap, l.thread, l.bag);
  }

  /** Wherever the bump pointer stands, incrementing it moves it to the next slot of the
      item and keeps `lastofCurBag` at the last slot of the bag it is in. */
  lemma BumpIsSuccessor(c: Config, s: Slot)
    requires ValidItem(c, s.item)
    ensures var t := s.(k := s.k + 1);
      Bump(c, s.item.bag, SlotAddr(c, s), LastOf(c, s)) == (SlotAddr(c, t), LastOf(c, t))
    ensures SlotAddr(c, s) < LastOf(c, s) <==> LocOf(c, s).idx + 1 < PerBag(c, s.item)
  {
    hide NumObjects, Pow2, Bump, AddrOf, BagStart;
    NextLoc(c, s);
    if LocOf(c, s).idx + 1 < PerBag(c, s.item) {
      BumpInBag(c, LocOf(c, s));
    } else {
      BumpToNextHeap(c, LocOf(c, s));
    }
  }

  /** The bump pointer set by `initialize` is slot 0, and its bag ends at `LastOf`. */
  lemma FirstSlot(c: Config, it: Item)
    requires ValidItem(c, it)
    ensures SlotAddr(c, Slot(it, 0)) == BagStart(c, 0, it.thread, it.bag) + it.setItem * c.HeapSize()
    ensures LastOf(c, Slot(it, 0))
      == GetLastOfBag(c, SlotAddr(c, Slot(it, 0)), GuardOffset(c, it.bag), ClassSize(it.bag))
  {
    GlobalBagSplit(c, it.setItem, it.thread, it.bag);
    BagIsFilled(c, it.bag);
    MulDistrib(PerBag(c, it) - 1, 1, ClassSize(it.bag));
  }

  // ------------------------------------------------------------ the canary walk

  datatype Direction = Left | Right

  function NextShadowHeapObjectOffset(c: Config, bag: nat): int
    requires c.Valid() && bag < c.UsableBags()
  {
    ShadowCeil(c) * SET_SIZE - (NumObjects(c, bag) - 1) * SHADOW_INFO
  }

  /** `getNextCanaryNeighbor(shadowinfo, bag, move)`. */
  function GetNextCanaryNeighbor(c: Config, shadow: nat, thread: nat, bag: nat, move: Direction): Option<int>
    requires c.Valid() && c.shadowBegin <= shadow && bag < c.UsableBags()
  {
    var objectindex := ShadowIndex(c, shadow, thread, bag);
    match move
    case Left =>
      if objectindex == 0 then
        if ShadowHeap(c, shadow) < SET_SIZE then None
        else Some(shadow - NextShadowHeapObjectOffset(c, bag))
      else Some(shadow - SHADOW_INFO)
    case Right =>
      if objectindex == NumObjects(c, bag) - 1 then Some(shadow + NextShadowHeapObjectOffset(c, bag))
      else Some(shadow + SHADOW_INFO)
  }

  lemma ShadowStep(c: Config, s: Slot)
    requires ValidItem(c, s.item)
    ensures SlotShadow(c, s.(k := s.k + 1)) == SlotShadow(c, s) +
      if LocOf(c, s).idx == NumObjects(c, s.item.bag) - 1 then NextShadowHeapObjectOffset(c, s.item.bag)
      else SHADOW_INFO
  {
    NextLoc(c, s);
    MulDistrib(LocOf(c, s).heap, SET_SIZE, ShadowCeil(c));
  }

  /** The walk to the right visits slot `k + 1`, the walk to the left slot `k - 1`; only
      slot 0 has no left neighbour. */
  lemma NeighbourIsAdjacent(c: Config, s: Slot)
    requires ValidItem(c, s.item)
    ensures c.shadowBegin <= SlotShadow(c, s)
    ensures GetNextCanaryNeighbor(c, SlotShadow(c, s), s.item.thread, s.item.bag, Right)
         == Some(SlotShadow(c, s.(k := s.k + 1)))
    ensures GetNextCanaryNeighbor(c, SlotShadow(c, s), s.item.thread, s.item.bag, Left)
         == if s.k == 0 then None else Some(SlotShadow(c, s.(k := s.k - 1)))
  {
    var l, n := LocOf(c, s), PerBag(c, s.item);
    ShadowToAddr(c, l);
    ShadowStep(c, s);
    if s.k == 0 {
      DivModUnique(0, n, 0, 0);
    } else {
      var p := s.(k := s.k - 1);
      assert p.(k := p.k + 1) == s;
      NextLoc(c, p);
      ShadowStep(c, p);
    }
  }

  /** Left and right undo each other, and the right neighbour's address is where the bump
      pointer goes from here: shadow walk and bump pointer agree on where bags end. */
  lemma WalkAgreesWithBump(c: Config, s: Slot)
    requires ValidItem(c, s.item)
    ensures var t, b := s.item.thread, s.item.bag;
      var right := GetNextCanaryNeighbor(c, SlotShadow(c, s), t, b, Right);
      && right.Some? && right.value >= c.shadowBegin
      && GetNextCanaryNeighbor(c, right.value, t, b, Left) == Some(SlotShadow(c, s))
      && GetAddrFromShadowInfo(c, right.value, t, b) == Bump(c, b, SlotAddr(c, s), LastOf(c, s)).0
  {
    var r := s.(k := s.k + 1);
    NeighbourIsAdjacent(c, s);
    NeighbourIsAdjacent(c, r);
    assert r.(k := r.k - 1) == s;
    BumpIsSuccessor(c, s);
    ShadowToAddr(c, LocOf(c, r));
  }

  // ------------------------------------------------------------ disjointness

  ghost predicate Disjoint(a: int, sizeA: int, b: int, sizeB: int) {
    a + sizeA <= b || b + sizeB <= a
  }

  /** An object lies in its bag, in front of the bag's trailing guard. */
  lemma ObjectInBag(c: Config, l: Loc)
    requires ValidLoc(c, l)
    ensures BagStart(c, l.heap, l.thread, l.bag) <= AddrOf(c, l)
    ensures AddrOf(c, l) + ClassSize(l.bag) + GuardOffset(c, l.bag)
      <= BagStart(c, l.heap, l.thread, l.bag) + c.BagSize()
  {
    IndexInBag(c, l.bag, l.idx);
  }

  lemma GlobalBagInjective(c: Config, l: Loc, m: Loc)
    requires l.thread < c.Threads() && m.thread < c.Threads() && l.bag < c.NumBags() && m.bag < c.NumBags()
    requires GlobalBag(c, l.heap, l.thread, l.bag) == GlobalBag(c, m.heap, m.thread, m.bag)
    ensures l.heap == m.heap && l.thread == m.thread && l.bag == m.bag
  {
    GlobalBagDigits(c, l.heap, l.thread, l.bag);
    GlobalBagDigits(c, m.heap, m.thread, m.bag);
    OffsetDigits(c, l.heap, l.thread, l.bag, 0);
    OffsetDigits(c, m.heap, m.thread, m.bag, 0);
  }

  /** No two slots overlap. */
  lemma ObjectsDisjoint(c: Config, l: Loc, m: Loc)
    requires ValidLoc(c, l) && ValidLoc(c, m) && l != m
    ensures Disjoint(AddrOf(c, l), ClassSize(l.bag), AddrOf(c, m), ClassSize(m.bag))
  {
    var g, g' := GlobalBag(c, l.heap, l.thread, l.bag), GlobalBag(c, m.heap, m.thread, m.bag);
    ObjectInBag(c, l);
    ObjectInBag(c, m);
    if g < g' {
      MulGap(g, g', c.BagSize());
    } else if g' < g {
      MulGap(g', g, c.BagSize());
    } else {
      GlobalBagInjective(c, l, m);
      if l.idx < m.idx {
        MulGap(l.idx, m.idx, ClassSize(l.bag));
      } else {
        MulGap(m.idx, l.idx, ClassSize(l.bag));
      }
    }
  }

  lemma SlotsDisjoint(c: Config, s: Slot, r: Slot)
    requires ValidItem(c, s.item) && ValidItem(c, r.item) && s != r
    ensures Disjoint(SlotAddr(c, s), ClassSize(s.item.bag), SlotAddr(c, r), ClassSize(r.item.bag))
  {
    SlotLocRoundTrip(c, s);
    SlotLocRoundTrip(c, r);
    ObjectsDisjoint(c, LocOf(c, s), LocOf(c, r));
  }

  /** The range protected by `setGuardPage` for the bag of location `m`. */
  function TrailingGuardStart(c: Config, m: Loc): int
    requires c.Valid()
  {
    BagStart(c, m.heap, m.thread, m.bag) + c.BagSize() - GuardOffset(c, m.bag)
  }

  /** The unusable bags that a trailing guard runs on through. */
  function GuardedBags(c: Config, bag: nat): nat
    requires c.Valid()
  {
    if bag + 1 == c.UsableBags() then c.NumBags() - c.UsableBags() else 0
  }

  /** The bag of `l` comes after them if it comes after the bag of `m`. */
  lemma GuardedBagsBefore(c: Config, l: Loc, m: Loc)
    requires ValidLoc(c, l) && ValidLoc(c, m)
    requires GlobalBag(c, m.heap, m.thread, m.bag) < GlobalBag(c, l.heap, l.thread, l.bag)
    ensures GlobalBag(c, m.heap, m.thread, m.bag) + GuardedBags(c, m.bag) + 1 <= GlobalBag(c, l.heap, l.thread, l.bag)
  {
    hide NumObjects, Pow2;
    var a, b := l.heap * c.Threads() + l.thread, m.heap * c.Threads() + m.thread;
    if a <= b {
      MulMonotone(a, b, c.NumBags());
    } else {
      MulGap(b, a, c.NumBags());
    }
  }

  /** No slot of any bag meets a trailing guard, not even the one of the last usable bag,
      which runs on through the unusable bags behind it. */
  lemma TrailingGuardDisjoint(c: Config, l: Loc, m: Loc)
    requires ValidLoc(c, l) && ValidLoc(c, m)
    ensures Disjoint(AddrOf(c, l), ClassSize(l.bag), TrailingGuardStart(c, m), GuardSize(c, m.bag))
  {
    hide NumObjects, Pow2;
    var g, g' := GlobalBag(c, l.heap, l.thread, l.bag), GlobalBag(c, m.heap, m.thread, m.bag);
    ObjectInBag(c, l);
    BagIsFilled(c, m.bag);
    if g < g' {
      MulMonotone(0, NumObjects(c, m.bag), ClassSize(m.bag));
      MulGap(g, g', c.BagSize());
    } else if g' < g {
      GuardedBagsBefore(c, l, m);
      var rest := GuardedBags(c, m.bag);
      MulMonotone(g' + rest + 1, g, c.BagSize());
      MulDistrib(g' + 1, rest, c.BagSize());
      MulDistrib(g', 1, c.BagSize());
    } else {
      GlobalBagInjective(c, l, m);
    }
  }

  // ------------------------------------------------------------ random guard pages

  /** Slots lost to one random guard: those of one page, or one object of a page or more. */
  function SkipCount(bag: nat): (n: nat)
    ensures n >= 1
  {
    ClassVersusPage(bag);
    if ClassSize(bag) < PAGE then PAGE / ClassSize(bag) else 1
  }

  function RandomGuardSize(bag: nat): nat {
    if ClassSize(bag) < PAGE then PAGE else ClassSize(bag)
  }

  /** The values of `position` and `lastofCurBag` after `tryRandomGuardPage` decides to
      protect the page or object at `position`. */
  function RandomGuard(c: Config, bag: nat, position: int, lastof: int): (int, int)
    requires c.Valid()
  {
    var skipped := if ClassSize(bag) < PAGE then (PAGE / ClassSize(bag) - 1) * ClassSize(bag) else 0;
    Bump(c, bag, position + skipped, lastof)
  }

  /** Both ends of a small-object bag fall on page boundaries of the slot numbering. */
  lemma PagesOfBag(c: Config, bag: nat)
    requires c.Valid() && bag < c.UsableBags() && ClassSize(bag) < PAGE
    ensures NumObjects(c, bag) % SkipCount(bag) == 0
    ensures PAGE == SkipCount(bag) * ClassSize(bag)
  {
    ClassVersusPage(bag);
    PageBits();
    var cs, q, pages := ClassSize(bag), SkipCount(bag), Pow2(c.bagBits - PAGE_BITS);
    Pow2Add(c.bagBits - PAGE_BITS, PAGE_BITS);
    assert c.BagSize() == (pages * q) * cs by { MulAssoc(pages, q, cs); }
    MulMod(pages * q, cs);
    Pow2Strict(PAGE_BITS, c.bagBits);
    Pow2Strict(0, c.bagBits - PAGE_BITS);
    MulMonotone(2, pages, q);
    MulDistrib(pages - 1, 1, q);
    MulMod(pages - 1, q);
  }

  lemma BagStartAligned(c: Config, heap: nat, thread: nat, bag: nat)
    requires c.Valid()
    ensures BagStart(c, heap, thread, bag) % PAGE == 0
  {
    hide Pow2, GlobalBag;
    PageBits();
    Pow2Add(c.bagBits - PAGE_BITS, PAGE_BITS);
    var g, pages := GlobalBag(c, heap, thread, bag), Pow2(c.bagBits - PAGE_BITS);
    MulAssoc(g, pages, PAGE);
    MulMod(g * pages, PAGE);
    SumOfMultiples(c.heapBegin, g * pages * PAGE, PAGE);
  }

  /** A page-aligned bump pointer into a small-object bag has a whole page of slots left. */
  lemma PageAlignedSlot(c: Config, s: Slot)
    requires ValidItem(c, s.item) && SlotAddr(c, s) % PAGE == 0
    ensures LocOf(c, s).idx + SkipCount(s.item.bag) <= PerBag(c, s.item)
  {
    var l, bag := LocOf(c, s), s.item.bag;
    if ClassSize(bag) < PAGE {
      var cs, q := ClassSize(bag), SkipCount(bag);
      PagesOfBag(c, bag);
      BagStartAligned(c, l.heap, l.thread, bag);
      MultipleRest(BagStart(c, l.heap, l.thread, bag), l.idx * cs, PAGE);
      CancelFactor(l.idx, q, cs);
      MultiplesGap(l.idx, PerBag(c, s.item), q);
    }
  }

  /** Steps that stay inside a bag move by whole class sizes. */
  lemma StepsInBag(c: Config, s: Slot, j: nat)
    requires ValidItem(c, s.item) && LocOf(c, s).idx + j < PerBag(c, s.item)
    ensures LocOf(c, s.(k := s.k + j)) == LocOf(c, s).(idx := LocOf(c, s).idx + j)
    ensures SlotAddr(c, s.(k := s.k + j)) == SlotAddr(c, s) + j * ClassSize(s.item.bag)
    ensures LastOf(c, s.(k := s.k + j)) == LastOf(c, s)
  {
    DivModUnique(s.k + j, PerBag(c, s.item), s.k / PerBag(c, s.item), s.k % PerBag(c, s.item) + j);
    MulDistrib(LocOf(c, s).idx, j, ClassSize(s.item.bag));
  }

  /** A random guard at a page-aligned bump pointer keeps the pointer at or before
      `lastofCurBag`, lands on a slot boundary, and protects exactly the slots it skips. */
  lemma RandomGuardSkips(c: Config, s: Slot)
    requires ValidItem(c, s.item) && SlotAddr(c, s) % PAGE == 0
    ensures var n, cs := SkipCount(s.item.bag), ClassSize(s.item.bag);
      && RandomGuardSize(s.item.bag) == n * cs
      && SlotAddr(c, s) + (n - 1) * cs <= LastOf(c, s)
      && RandomGuard(c, s.item.bag, SlotAddr(c, s), LastOf(c, s))
         == (SlotAddr(c, s.(k := s.k + n)), LastOf(c, s.(k := s.k + n)))
      && SlotAddr(c, s) + RandomGuardSize(s.item.bag) <= TrailingGuardStart(c, LocOf(c, s))
  {
    hide Pow2, BagStart, NumObjects;
    var bag, n, cs := s.item.bag, SkipCount(s.item.bag), ClassSize(s.item.bag);
    PageAlignedSlot(c, s);
    var last := s.(k := s.k + (n - 1));
    StepsInBag(c, s, n - 1);
    BumpIsSuccessor(c, last);
    assert last.(k := last.k + 1) == s.(k := s.k + n);
    ObjectInBag(c, LocOf(c, last));
    MulDistrib(n - 1, 1, cs);
    MulMonotone(LocOf(c, last).idx, PerBag(c, s.item) - 1, cs);
    if cs < PAGE { PagesOfBag(c, bag); }
  }

  /** A slot that starts between two slots of a bag belongs to that bag. */
  lemma SameBagBetween(c: Config, l: Loc, m: Loc, h: Loc)
    requires ValidLoc(c, l) && ValidLoc(c, m) && ValidLoc(c, h) && h == l.(idx := h.idx)
    requires AddrOf(c, l) < AddrOf(c, m) < AddrOf(c, h)
    ensures m == l.(idx := m.idx) && l.idx < m.idx < h.idx
  {
    var g, g' := GlobalBag(c, l.heap, l.thread, l.bag), GlobalBag(c, m.heap, m.thread, m.bag);
    ObjectInBag(c, l);
    ObjectInBag(c, m);
    ObjectInBag(c, h);
    if g < g' {
      MulGap(g, g', c.BagSize());
      assert false;
    } else if g' < g {
      MulGap(g', g, c.BagSize());
      assert false;
    }
    GlobalBagInjective(c, l, m);
    if m.idx <= l.idx { MulMonotone(m.idx, l.idx, ClassSize(l.bag)); }
    if h.idx <= m.idx { MulMonotone(h.idx, m.idx, ClassSize(l.bag)); }
  }

  /** The range of a random guard meets no slot but those it skips. */
  lemma RandomGuardDisjoint(c: Config, s: Slot, r: Slot)
    requires ValidItem(c, s.item) && ValidItem(c, r.item) && SlotAddr(c, s) % PAGE == 0
    requires !(r.item == s.item && s.k <= r.k < s.k + SkipCount(s.item.bag))
    ensures Disjoint(SlotAddr(c, s), RandomGuardSize(s.item.bag), SlotAddr(c, r), ClassSize(r.item.bag))
  {
    var n, cs := SkipCount(s.item.bag), ClassSize(s.item.bag);
    RandomGuardSkips(c, s);
    PageAlignedSlot(c, s);
    var last := s.(k := s.k + (n - 1));
    StepsInBag(c, s, n - 1);
    MulDistrib(n - 1, 1, cs);
    SlotsDisjoint(c, s, r);
    SlotsDisjoint(c, last, r);
    var l, m := LocOf(c, s), LocOf(c, r);
    if SlotAddr(c, s) < SlotAddr(c, r) < SlotAddr(c, last) {
      SameBagBetween(c, l, m, LocOf(c, last));
      SlotLocRoundTrip(c, r);
      SlotLocRoundTrip(c, s);
    }
  }

  // ------------------------------------------------------------ the shadow mapping

  /** `allocShadowMem` maps `NUM_HEAPS` times the exact per-heap size. */
  function ShadowMappingSize(c: Config): nat
    requires c.Valid()
  {
    NUM_HEAPS * ShadowSizePerHeap(c)
  }

  ghost predicate ShadowMapped(c: Config, heap: nat)
    requires c.Valid()
  {
    forall l :: ValidLoc(c, l) && l.heap == heap ==>
      c.shadowBegin <= ShadowOf(c, l) && ShadowOf(c, l) + SHADOW_INFO <= c.shadowBegin + ShadowMappingSize(c)
  }

  lemma HeapShadowSpan(c: Config, l: Loc)
    requires ValidLoc(c, l)
    ensures c.shadowBegin + l.heap * ShadowCeil(c) <= ShadowOf(c, l)
    ensures ShadowOf(c, l) + SHADOW_INFO <= c.shadowBegin + l.heap * ShadowCeil(c) + ShadowSizePerHeap(c)
  {
    ObjectIndexBound(c, l.bag, l.idx);
    DigitsBound(l.thread, ObjectsBefore(c, l.bag) + l.idx, c.Threads(), ObjectsPerThread(c));
  }

  /** The last object of the last usable bag of the last thread has the last entry. */
  lemma LastShadowEntry(c: Config, heap: nat) returns (l: Loc)
    requires c.Valid()
    ensures ValidLoc(c, l) && l.heap == heap && l.idx + 1 == NumObjects(c, l.bag)
    ensures ShadowOf(c, l) + SHADOW_INFO == c.shadowBegin + heap * ShadowCeil(c) + ShadowSizePerHeap(c)
  {
    var bag := c.UsableBags() - 1;
    BagIsFilled(c, bag);
    l := Loc(heap, c.Threads() - 1, bag, NumObjects(c, bag) - 1);
    MulDistrib(c.Threads() - 1, 1, ObjectsPerThread(c));
  }

  /** Doubling a size is no worse than doubling the number of heaps. */
  lemma LowerHalf(heap: nat, ceil: nat, size: nat)
    requires 2 * heap < NUM_HEAPS && ceil < 2 * size
    ensures heap * ceil <= (NUM_HEAPS - 1) * size
  {
    MulMonotone(ceil, 2 * size, heap);
    assert ceil * heap == heap * ceil && (2 * size) * heap == (2 * heap) * size;
    MulMonotone(2 * heap, NUM_HEAPS - 1, size);
  }

  /** Because heaps are spaced by the rounded-up size but mapped by the exact one, the
      shadow of a heap is wholly inside the mapping exactly under this bound, which every
      heap in the lower half of `BIBOP_NUM_HEAPS` meets. */
  lemma ShadowMappedExactly(c: Config, heap: nat)
    requires c.Valid()
    ensures ShadowMapped(c, heap) <==> heap * ShadowCeil(c) <= (NUM_HEAPS - 1) * ShadowSizePerHeap(c)
    ensures 2 * heap < NUM_HEAPS ==> ShadowMapped(c, heap)
  {
    hide ShadowSizePerHeap, ShadowCeil, ShadowOf;
    ShadowCeilBounds(c);
    var size, ceil := ShadowSizePerHeap(c), ShadowCeil(c);
    if heap * ceil <= (NUM_HEAPS - 1) * size {
      forall l | ValidLoc(c, l) && l.heap == heap
        ensures c.shadowBegin <= ShadowOf(c, l) && ShadowOf(c, l) + SHADOW_INFO <= c.shadowBegin + ShadowMappingSize(c)
      {
        HeapShadowSpan(c, l);
      }
    } else {
      var l := LastShadowEntry(c, heap);
    }
    if 2 * heap < NUM_HEAPS { LowerHalf(heap, ceil, size); }
  }

  /** The default build when the randomized bag size comes out as 4 MB. */
  ghost predicate DefaultBuild(c: Config) {
    c.Valid() && c.bagBits == 22 && c.bagCountBits == 5 && c.threadBits == 7 && c.largeBits == 22
  }

  lemma DefaultNumObjects(c: Config, bag: nat)
    requires DefaultBuild(c) && bag < 19
    ensures NumObjects(c, bag) ==
      if bag < 8 then Pow2(18 - bag) - Pow2(8 - bag) else if bag < 18 then Pow2(18 - bag) - 1 else 1
  {
    Pow2Add(18 - bag, MIN_BLOCK_BITS + bag);
    MulMod(Pow2(18 - bag), ClassSize(bag));
    ClassVersusPage(bag);
    if bag < 18 { Pow2Strict(0, 18 - bag); }
  }

  lemma {:induction false} DefaultObjectsBefore(c: Config, bag: nat)
    requires DefaultBuild(c) && bag <= 18
    ensures ObjectsBefore(c, bag) ==
      0x8_0000 - Pow2(19 - bag) - (if bag < 8 then 0x200 - Pow2(9 - bag) else 502 + bag)
  {
    hide NumObjects;
    if bag == 0 {
      assert Pow2(9) == 0x200 && Pow2(19) == 0x8_0000;
    } else {
      DefaultObjectsBefore(c, bag - 1);
      DefaultNumObjects(c, bag - 1);
      if bag == 8 { assert Pow2(9 - bag) == 2; }
    }
  }

  lemma DefaultShadowSize(c: Config)
    requires DefaultBuild(c)
    ensures ShadowSizePerHeap(c) == 536337408
  {
    assert Pow2(7) == 128 && Pow2(19) == 524288;
    DefaultObjectsBefore(c, 18);
    DefaultNumObjects(c, 18);
    assert ObjectsBefore(c, 19) == 523767;
  }

  lemma Log2Between(x: nat, n: nat)
    requires Pow2(n) <= x < Pow2(n + 1)
    ensures Log2(x) == n
  {
    Log2Bounds(x);
    if Log2(x) < n { Pow2Monotone(Log2(x) + 1, n); }
    if n < Log2(x) { Pow2Monotone(n + 1, Log2(x)); }
  }

  lemma ShadowCeilFrom(c: Config, n: nat)
    requires c.Valid() && Pow2(n) < ShadowSizePerHeap(c) <= Pow2(n + 1)
    ensures ShadowCeil(c) == Pow2(n + 1)
  {
    Log2Between(ShadowSizePerHeap(c) - 1, n);
  }

  lemma DefaultShadowCeil(c: Config)
    requires DefaultBuild(c)
    ensures ShadowCeil(c) == 536870912
  {
    DefaultShadowSize(c);
    var n: nat := 28;
    assert Pow2(7) == 128;
    Pow2Add(7, 7);
    Pow2Add(14, 14);
    assert Pow2(n) == 268435456;
    assert Pow2(n + 1) == 2 * Pow2(n);
    ShadowCeilFrom(c, n);
  }

  /** In that build the mapping holds the shadow of heaps 0 to 1021, not of the last two. */
  lemma DefaultShadowMapped(c: Config, heap: nat)
    requires DefaultBuild(c)
    ensures ShadowMapped(c, heap) <==> heap < 1022
  {
    DefaultShadowSize(c);
    DefaultShadowCeil(c);
    ShadowMappedExactly(c, heap);
  }

  // ------------------------------------------------------------ size classes

  const SIZE_LIMIT: nat := 0x1_0000_0000_0000_0000

  /** The request with room for the canary, in `size_t` arithmetic. */
  function WithCanary(size: nat): nat { (size + 1) % SIZE_LIMIT }

  /** `IF_CANARY_CONDITION`: requests that go to the big heap. */
  predicate IsLarge(c: Config, size: nat) { WithCanary(size) > Pow2(c.largeBits) }

  /** `32 - __builtin_clz(x)`, which sees the low 32 bits of its operand only. */
  function BitLength(x: nat): nat {
    var low := Mask(x, UINT_BITS);
    if low == 0 then 0 else Log2(low) + 1
  }

  /** The class size computed by `allocateSmallObject`: `(1 << 32) >> clz(sz - 1)`. */
  function ClassSizeFor(sz: nat): (classSize: nat)
    ensures classSize > 0
  {
    if sz <= Pow2(MIN_BLOCK_BITS) then Pow2(MIN_BLOCK_BITS) else Pow2(BitLength(sz - 1))
  }

  /** `getBagNum`. */
  function BagNum(classSize: nat): int
    requires classSize > 0
  {
    Log2(classSize) - MIN_BLOCK_BITS
  }

  function BagFor(size: nat): int {
    BagNum(ClassSizeFor(WithCanary(size)))
  }

  lemma BitLengthIs(x: nat)
    requires 0 < x < Pow2(UINT_BITS)
    ensures BitLength(x) == Log2(x) + 1
  {
    DivModUnique(x, Pow2(UINT_BITS), 0, x);
  }

  /** As long as `sz - 1` has 32 bits, the class computed with `clz` is the least power of
      two that holds the request. */
  lemma ClassSizeForFits(sz: nat)
    requires sz <= Pow2(UINT_BITS)
    ensures BagNum(ClassSizeFor(sz)) >= 0
    ensures ClassSizeFor(sz) == ClassSize(BagNum(ClassSizeFor(sz)))
    ensures sz <= ClassSizeFor(sz)
    ensures BagNum(ClassSizeFor(sz)) > 0 ==> ClassSize(BagNum(ClassSizeFor(sz)) - 1) < sz
  {
    hide Pow2, Log2, BitLength;
    Log2Pow2(MIN_BLOCK_BITS);
    if sz > Pow2(MIN_BLOCK_BITS) {
      var n := Log2(sz - 1);
      BitLengthIs(sz - 1);
      Log2Bounds(sz - 1);
      Log2Pow2(n + 1);
      if n < MIN_BLOCK_BITS { Pow2Monotone(n + 1, MIN_BLOCK_BITS); }
    }
  }

  /** The request that wraps to zero gets the least class. */
  lemma LeastClass()
    ensures BagNum(ClassSizeFor(0)) == 0 && ClassSize(0) == 16
  {
    Log2Pow2(MIN_BLOCK_BITS);
  }

  /** A small request is served from a usable bag by the least class that holds it and its
      canary byte; only the request that overflows `size_t` gets an object too small for it. */
  lemma BagForFits(c: Config, size: nat)
    requires c.Valid() && size < SIZE_LIMIT && !IsLarge(c, size)
    ensures 0 <= BagFor(size) < c.UsableBags()
    ensures ClassSizeFor(WithCanary(size)) == ClassSize(BagFor(size))
    ensures size + 1 <= ClassSize(BagFor(size)) <==> size + 1 < SIZE_LIMIT
    ensures BagFor(size) > 0 ==> ClassSize(BagFor(size) - 1) < size + 1
  {
    hide ClassSizeFor, BagNum, Pow2;
    Pow2Monotone(c.largeBits, UINT_BITS);
    ClassSizeForFits(WithCanary(size));
    if BagFor(size) >= c.UsableBags() {
      Pow2Monotone(c.largeBits, MIN_BLOCK_BITS + BagFor(size) - 1);
    }
    if size + 1 == SIZE_LIMIT {
      LeastClass();
    }
  }

  /** A request goes to the big heap exactly when no usable class holds it and its canary,
      unless it overflows `size_t`. */
  lemma LargeExactly(c: Config, size: nat)
    requires c.Valid() && size < SIZE_LIMIT
    ensures IsLarge(c, size) <==> ClassSize(c.UsableBags() - 1) < size + 1 < SIZE_LIMIT
    ensures IsLarge(c, size) <==>
      size + 1 < SIZE_LIMIT && forall bag: nat :: bag < c.UsableBags() ==> ClassSize(bag) < size + 1
  {
    hide Pow2;
    forall bag: nat | bag < c.UsableBags() ensures ClassSize(bag) <= ClassSize(c.UsableBags() - 1) {
      Pow2Monotone(MIN_BLOCK_BITS + bag, c.largeBits);
    }
  }

  /** No class below that of a small request holds it. */
  lemma NoSmallerClass(c: Config, size: nat, bag: nat)
    requires c.Valid() && size < SIZE_LIMIT && !IsLarge(c, size) && bag < BagFor(size)
    ensures ClassSize(bag) < size + 1
  {
    hide Pow2, BagFor;
    BagForFits(c, size);
    Pow2Monotone(MIN_BLOCK_BITS + bag, MIN_BLOCK_BITS + BagFor(size) - 1);
  }
}
