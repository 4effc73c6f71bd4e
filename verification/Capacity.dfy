/** Where the two mappings end: which slots and guards lie inside the heap mapping, which
    shadow entries inside the shadow mapping, and what goes wrong just behind them. */
module Capacity {
  import opened Arithmetic
  import opened Layout
  import opened Slots
  import opened Machine
  import opened Bibop

  /** `_heapEnd`. */
  function HeapEnd(c: Config): nat { c.heapBegin + NUM_HEAPS * c.HeapSize() }

  /** The slot lies in one of the heaps there are. */
  ghost predicate InHeaps(c: Config, s: Slot) {
    ValidItem(c, s.item) && LocOf(c, s).heap < NUM_HEAPS
  }

  /** The slot's shadow entry lies in the shadow mapping. */
  ghost predicate EntryMapped(c: Config, s: Slot) {
    ValidItem(c, s.item) && SlotShadow(c, s) + SHADOW_INFO <= c.shadowBegin + ShadowMappingSize(c)
  }

  /** The slot can be allocated, and freed again: a free looks at the entries of two
      neighbours on either side. */
  ghost predicate Reachable(c: Config, s: Slot) {
    InHeaps(c, s) && EntryMapped(c, s) && EntryMapped(c, s.(k := s.k + 1)) && EntryMapped(c, s.(k := s.k + 2))
  }

  /** A range that lies outside the heap mapping. */
  ghost predicate OutsideHeap(c: Config, start: nat, len: nat) {
    Disjoint(start, len, c.heapBegin, NUM_HEAPS * c.HeapSize())
  }

  ghost predicate InsideHeap(c: Config, range: (int, int)) {
    c.heapBegin <= range.0 && range.0 + range.1 <= HeapEnd(c)
  }

  // ------------------------------------------------------------ the heap mapping

  /** A bag of those heaps ends inside the mapping. */
  lemma BagInMapping(c: Config, heap: nat, thread: nat, bag: nat)
    requires heap < NUM_HEAPS && thread < c.Threads() && bag < c.NumBags()
    ensures c.heapBegin <= BagStart(c, heap, thread, bag)
    ensures BagStart(c, heap, thread, bag) + c.BagSize() <= HeapEnd(c)
  {
    var low := GlobalBag(c, 0, thread, bag);
    GlobalBagSplit(c, heap, thread, bag);
    GlobalBagDigits(c, heap, thread, bag);
    SizesFactor(c);
    MulGap(low, c.NumBags() * c.Threads(), c.BagSize());
    MulGap(heap, NUM_HEAPS, c.HeapSize());
    MulMonotone(0, GlobalBag(c, heap, thread, bag), c.BagSize());
  }

  /** A slot of those heaps lies inside the mapping, the last byte included. */
  lemma SlotInMapping(c: Config, s: Slot)
    requires InHeaps(c, s)
    ensures c.heapBegin <= SlotAddr(c, s) < SlotAddr(c, s) + ClassSize(s.item.bag) <= HeapEnd(c)
  {
    var l := LocOf(c, s);
    ObjectInBag(c, l);
    BagInMapping(c, l.heap, l.thread, l.bag);
  }

  /** A trailing guard of those heaps lies inside the mapping, the unusable bags included. */
  lemma TrailingInMapping(c: Config, l: Loc)
    requires ValidLoc(c, l) && l.heap < NUM_HEAPS
    ensures InsideHeap(c, TrailingRange(c, l))
  {
    BagIsFilled(c, l.bag);
    BagInMapping(c, l.heap, l.thread, l.bag);
    BagInMapping(c, l.heap, l.thread, c.NumBags() - 1);
    var g, rest := GlobalBag(c, l.heap, l.thread, l.bag), c.NumBags() - 1 - l.bag;
    MulMonotone(0, NumObjects(c, l.bag), ClassSize(l.bag));
    assert GlobalBag(c, l.heap, l.thread, c.NumBags() - 1) == g + rest;
    MulDistrib(g, rest, c.BagSize());
  }

  lemma RandomInMapping(c: Config, s: Slot)
    requires PageAligned(c, s) && InHeaps(c, s)
    ensures InsideHeap(c, (SlotAddr(c, s), RandomGuardSize(s.item.bag)))
  {
    var l := LocOf(c, s);
    RandomGuardSkips(c, s);
    SlotInMapping(c, s);
    BagInMapping(c, l.heap, l.thread, l.bag);
  }

  lemma HeapGrows(c: Config, s: Slot, k: nat)
    requires ValidItem(c, s.item) && s.k <= k
    ensures LocOf(c, s).heap <= LocOf(c, s.(k := k)).heap
  {
    DivMonotone(s.k, k, PerBag(c, s.item));
  }

  lemma BagBehind(c: Config, heap: nat, thread: nat, bag: nat)
    requires heap >= NUM_HEAPS
    ensures HeapEnd(c) <= BagStart(c, heap, thread, bag)
  {
    GlobalBagSplit(c, heap, thread, bag);
    MulMonotone(NUM_HEAPS, heap, c.HeapSize());
    MulMonotone(0, GlobalBag(c, 0, thread, bag), c.BagSize());
  }

  /** A trailing guard behind those heaps lies behind the mapping. */
  lemma TrailingBehind(c: Config, l: Loc)
    requires ValidLoc(c, l) && l.heap >= NUM_HEAPS && GuardSize(c, l.bag) > 0
    ensures HeapEnd(c) <= TrailingRange(c, l).0 && TrailingRange(c, l).1 > 0 && !InsideHeap(c, TrailingRange(c, l))
  {
    hide GlobalBag;
    BagBehind(c, l.heap, l.thread, l.bag);
    BagIsFilled(c, l.bag);
    MulMonotone(0, NumObjects(c, l.bag), ClassSize(l.bag));
  }

  lemma RandomBehind(c: Config, s: Slot)
    requires PageAligned(c, s) && !InHeaps(c, s)
    ensures !InsideHeap(c, (SlotAddr(c, s), RandomGuardSize(s.item.bag)))
  {
    var l := LocOf(c, s);
    BagBehind(c, l.heap, l.thread, l.bag);
    MulMonotone(0, l.idx, ClassSize(l.bag));
  }

  /** A bump pointer that leaves the heaps leaves a bag, and protects the next one's guard. */
  lemma LeavingGuards(c: Config, s: Slot)
    requires InHeaps(c, s) && !InHeaps(c, s.(k := s.k + 1)) && GuardSize(c, s.item.bag) > 0
    ensures TrailingRange(c, LocOf(c, s.(k := s.k + 1))) in NewBagGuards(c, s)
    ensures !InsideHeap(c, TrailingRange(c, LocOf(c, s.(k := s.k + 1))))
  {
    hide TrailingRange;
    NextLoc(c, s);
    BumpIsSuccessor(c, s);
    TrailingBehind(c, LocOf(c, s.(k := s.k + 1)));
  }

  /** The bump pointer at `s` moves on without protecting anything outside the heap mapping.
      Only a bag that is one object to its end has no trailing guard. */
  ghost predicate StaysInside(c: Config, s: Slot, low: bool)
    requires ValidItem(c, s.item)
  {
    var next := s.(k := s.k + 1);
    if GuardSize(c, s.item.bag) > 0 then InHeaps(c, AdvanceSlot(c, s, low))
    else low && PageAligned(c, next) ==> InHeaps(c, next)
  }

  lemma AdvanceStaysInside(c: Config, s: Slot, low: bool)
    requires InHeaps(c, s) && StaysInside(c, s, low)
    ensures forall g <- AdvanceGuards(c, s, low) :: InsideHeap(c, g)
  {
    hide LocOf, TrailingRange, InsideHeap;
    var next := s.(k := s.k + 1);
    if GuardSize(c, s.item.bag) > 0 {
      HeapGrows(c, next, AdvanceSlot(c, s, low).k);
      TrailingInMapping(c, LocOf(c, next));
    }
    if low && PageAligned(c, next) {
      RandomInMapping(c, next);
      if GuardSize(c, s.item.bag) > 0 { TrailingInMapping(c, LocOf(c, Skipped(next))); }
      assert Before(Skipped(next)).(k := Before(Skipped(next)).k + 1) == Skipped(next);
    }
  }

  /** The slots of a random guard lie in one bag. */
  lemma SkipStays(c: Config, s: Slot)
    requires PageAligned(c, s)
    ensures LocOf(c, Before(Skipped(s))).heap == LocOf(c, s).heap
  {
    PageAlignedSlot(c, s);
    StepsInBag(c, s, SkipCount(s.item.bag) - 1);
  }

  lemma AdvanceGoesOutside(c: Config, s: Slot, low: bool)
    requires InHeaps(c, s) && !StaysInside(c, s, low)
    ensures exists g :: g in AdvanceGuards(c, s, low) && !InsideHeap(c, g)
  {
    hide LocOf, TrailingRange, InsideHeap, NewBagGuards;
    var next := s.(k := s.k + 1);
    if GuardSize(c, s.item.bag) == 0 {
      RandomBehind(c, next);
      assert (SlotAddr(c, next), RandomGuardSize(s.item.bag)) in AdvanceGuards(c, s, low);
    } else if !InHeaps(c, next) {
      LeavingGuards(c, s);
      assert TrailingRange(c, LocOf(c, next)) in AdvanceGuards(c, s, low);
    } else {
      var last := Before(Skipped(next));
      assert last.(k := last.k + 1) == Skipped(next);
      SkipStays(c, next);
      LeavingGuards(c, last);
      assert TrailingRange(c, LocOf(c, Skipped(next))) in AdvanceGuards(c, s, low);
    }
  }

  /** What an allocation protects lies in the heap mapping exactly when the bump pointer stays
      in the heaps, or, where there are no trailing guards, when a random guard is not put
      behind them. */
  lemma AdvanceInMappingExactly(c: Config, s: Slot, low: bool)
    requires InHeaps(c, s)
    ensures (forall g <- AdvanceGuards(c, s, low) :: InsideHeap(c, g)) <==> StaysInside(c, s, low)
  {
    if StaysInside(c, s, low) { AdvanceStaysInside(c, s, low); } else { AdvanceGoesOutside(c, s, low); }
  }

  /** What `initialize` protects. */
  lemma FirstGuardInMapping(c: Config, g: (int, int))
    requires IsFirstGuard(c, g)
    ensures InsideHeap(c, g)
  {
    var l :| IsTrailingGuard(c, g, l) && l.heap < SET_SIZE;
    TrailingInMapping(c, l);
  }

  /** When the bump pointer leaves the last heap of an item, `incrementBumpPointer` protects
      a range behind `_heapEnd`, where a large object may have been mapped. */
  lemma GuardBehindHeap(c: Config, it: Item) returns (s: Slot, g: (int, int))
    requires ValidItem(c, it) && GuardSize(c, it.bag) > 0
    ensures s.item == it && InHeaps(c, s) && !InHeaps(c, AdvanceSlot(c, s, false))
    ensures g in AdvanceGuards(c, s, false) && g.1 > 0 && HeapEnd(c) <= g.0 && OutsideHeap(c, g.0, g.1)
  {
    BagIsFilled(c, it.bag);
    var n := PerBag(c, it);
    var l := Loc(NUM_HEAPS - SET_SIZE + it.setItem, it.thread, it.bag, n - 1);
    s := SlotAt(c, l);
    LocSlotRoundTrip(c, l);
    NextLoc(c, s);
    BumpIsSuccessor(c, s);
    var m := LocOf(c, s.(k := s.k + 1));
    g := TrailingRange(c, m);
    TrailingBehind(c, m);
  }

  // ------------------------------------------------------------ the shadow mapping

  lemma LastEntry(c: Config, heap: nat) returns (s: Slot)
    requires c.Valid() && heap < NUM_HEAPS
    ensures InHeaps(c, s) && LocOf(c, s).heap == heap && LocOf(c, s).idx + 1 == PerBag(c, s.item)
    ensures SlotShadow(c, s) + SHADOW_INFO == c.shadowBegin + heap * ShadowCeil(c) + ShadowSizePerHeap(c)
  {
    var l := LastShadowEntry(c, heap);
    s := SlotAt(c, l);
    LocSlotRoundTrip(c, l);
  }

  /** In the default build with 4 MB bags, each of the last two heaps has slots whose shadow
      entry lies behind the shadow mapping. */
  lemma UnmappedEntry(c: Config, heap: nat) returns (s: Slot)
    requires DefaultBuild(c) && 1022 <= heap < NUM_HEAPS
    ensures InHeaps(c, s) && LocOf(c, s).heap == heap && !EntryMapped(c, s)
  {
    s := LastEntry(c, heap);
    DefaultShadowSize(c);
    DefaultShadowCeil(c);
  }

  /** And the last heap but two has one whose own entry is mapped while the one a free looks
      at next is not. */
  lemma UnmappedNeighbour(c: Config) returns (s: Slot)
    requires DefaultBuild(c)
    ensures InHeaps(c, s) && LocOf(c, s).heap == 1021 && EntryMapped(c, s) && !EntryMapped(c, s.(k := s.k + 1))
  {
    s := LastEntry(c, 1021);
    DefaultShadowSize(c);
    DefaultShadowCeil(c);
    NextLoc(c, s);
    HeapShadowSpan(c, LocOf(c, s.(k := s.k + 1)));
  }

  lemma ObjectsFit(c: Config, bag: nat)
    requires c.Valid() && bag < c.UsableBags()
    ensures NumObjects(c, bag) * SHADOW_INFO <= ShadowSizePerHeap(c)
  {
    BagIsFilled(c, bag);
    ObjectIndexBound(c, bag, NumObjects(c, bag) - 1);
    MulMonotone(1, c.Threads(), ObjectsPerThread(c));
  }

  /** Shadow entries of an item rise with the slot number. */
  lemma EntriesBelow(c: Config, s: Slot, r: Slot)
    requires EntryMapped(c, s) && r.item == s.item && r.k <= s.k
    ensures EntryMapped(c, r)
    decreases s.k - r.k
  {
    if r.k < s.k {
      var p := s.(k := s.k - 1);
      ShadowStep(c, p);
      assert p.(k := p.k + 1) == s;
      ShadowCeilBounds(c);
      ObjectsFit(c, s.item.bag);
      EntriesBelow(c, p, r);
    }
  }

  lemma HeapsApart(c: Config, s: Slot)
    requires ValidItem(c, s.item)
    ensures LocOf(c, s.(k := s.k + 1)).heap <= LocOf(c, s).heap + SET_SIZE
  {
    NextLoc(c, s);
  }

  lemma AdvanceStays(c: Config, s: Slot, low: bool)
    requires ValidItem(c, s.item)
    ensures LocOf(c, AdvanceSlot(c, s, low)).heap <= LocOf(c, s).heap + 2 * SET_SIZE
  {
    var next := s.(k := s.k + 1);
    HeapsApart(c, s);
    if low && PageAligned(c, next) {
      PageAlignedSlot(c, next);
      StepsInBag(c, next, SkipCount(s.item.bag) - 1);
      var last := Before(Skipped(next));
      assert last == next.(k := next.k + (SkipCount(s.item.bag) - 1)) && last.(k := last.k + 1) == Skipped(next);
      HeapsApart(c, last);
    }
  }

  lemma DefaultEntry(c: Config, s: Slot)
    requires DefaultBuild(c) && ValidItem(c, s.item) && LocOf(c, s).heap < 1022
    ensures EntryMapped(c, s)
  {
    DefaultShadowMapped(c, LocOf(c, s).heap);
  }

  /** In the first 1014 heaps of that build there is always room. */
  lemma DefaultRoom(c: Config, s: Slot, low: bool)
    requires DefaultBuild(c) && ValidItem(c, s.item) && LocOf(c, s).heap < 1014
    ensures Reachable(c, s) && InHeaps(c, AdvanceSlot(c, s, low))
  {
    hide LocOf, ShadowOf;
    var r := s.(k := s.k + 1);
    HeapsApart(c, s);
    HeapsApart(c, r);
    assert r.(k := r.k + 1) == s.(k := s.k + 2);
    AdvanceStays(c, s, low);
    DefaultEntry(c, s);
    DefaultEntry(c, r);
    DefaultEntry(c, s.(k := s.k + 2));
  }
}
