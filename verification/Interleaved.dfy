/** The `BibopHeap` object under interleaving: any number of threads run its code on addresses,
    one lock, unlock, read or write at a time, and every step is that of the machine. */
module Interleaved {
  import opened Layout
  import opened Slots
  import opened FreeLists
  import opened Options
  import opened Threads
  import opened Machine
  import opened Overwrites
  import opened Bibop

  /** The local variables of `allocateSmallObject`, and where it stands. */
  datatype MallocFrame =
    | ToLock(useBumpPointer: bool)
    | HasLock(useBumpPointer: bool)
    | HasEntry(shadowinfo: nat)   // off the free list
    | ToUnlock
    | ToRead
    | HasPointer(ptr: nat)        // `ptr = *position` done
    | HasObject(ptr: nat)
    | ToMark(ptr: nat)

  /** The local variables of `freeSmallObject`: the canary about to be read, and the place in
      the walk over the neighbours (`move`, `pos`, `canaryShadow`). */
  datatype FreeFrame =
    | Checking(canary: nat, move: Direction, pos: nat, canaryShadow: nat)
    | Walking(move: Direction, pos: nat, canaryShadow: nat)
    | ToInsert
    | ToRelease

  datatype Frame =
    | Outside
    | InMalloc(thread: nat, bagNum: nat, setItem: nat, mframe: MallocFrame)
    | InFree(thread: nat, bagNum: nat, setItem: nat, shadowinfo: nat, fframe: FreeFrame)
    | Aborted

  // ------------------------------------------------------------ frames and program counters

  ghost predicate MallocFollows(c: Config, f: MallocFrame, stage: MallocStage) {
    match stage
    case Called(useBump) => f == ToLock(useBump)
    case Locked(useBump) => f == HasLock(useBump)
    case Taken(s) => ValidItem(c, s.item) && f == HasEntry(SlotShadow(c, s))
    case Leaving => f == ToUnlock
    case Bumping => f == ToRead
    case Read(k) => f.HasPointer?
    case Got(s) => ValidItem(c, s.item) && f == HasObject(SlotAddr(c, s))
    case Sealed(s) => ValidItem(c, s.item) && f == ToMark(SlotAddr(c, s))
  }

  /** The slot the walk has come to. */
  ghost function WalkSlot(s: Slot, move: Direction, pos: nat): Slot
    requires move == Left ==> pos <= s.k
  {
    if move == Left then s.(k := s.k - pos) else s.(k := s.k + pos)
  }

  function LeftOf(s: Slot, pos: nat): seq<Slot> {
    (if pos < 1 && s.k >= 1 then [s.(k := s.k - 1)] else [])
    + (if pos < 2 && s.k >= 2 then [s.(k := s.k - 2)] else [])
  }

  function RightOf(s: Slot, pos: nat): seq<Slot> {
    (if pos < 1 then [s.(k := s.k + 1)] else []) + (if pos < 2 then [s.(k := s.k + 2)] else [])
  }

  /** The slots the walk still has before it. */
  function Ahead(s: Slot, move: Direction, pos: nat): seq<Slot> {
    if move == Left then LeftOf(s, pos) + RightOf(s, 0) else RightOf(s, pos)
  }

  ghost predicate WalkFollows(c: Config, s: Slot, move: Direction, pos: nat, canaryShadow: nat, todo: seq<Slot>) {
    && ValidItem(c, s.item) && pos <= 2 && (move == Left ==> pos <= s.k)
    && canaryShadow == SlotShadow(c, WalkSlot(s, move, pos)) && todo == Ahead(s, move, pos)
  }

  ghost predicate FreeFollows(c: Config, f: FreeFrame, s: Slot, stage: FreeStage) {
    match stage
    case Probe(n, todo) =>
      f.Checking? && f.canary == CanaryAddr(c, n) && WalkFollows(c, s, f.move, f.pos, f.canaryShadow, todo)
    case Walk(todo) => f.Walking? && WalkFollows(c, s, f.move, f.pos, f.canaryShadow, todo)
    case Inserting => f == ToInsert
    case Inserted => f == ToRelease
  }

  /** The frame of a thread is its program counter, on addresses. */
  ghost predicate FrameFollows(c: Config, f: Frame, p: PC) {
    match p
    case Idle => f == Outside
    case Malloc(_, it, stage) =>
      && f.InMalloc? && it == Item(f.thread, f.bagNum, f.setItem) && MallocFollows(c, f.mframe, stage)
      && (stage.Read? ==> ValidItem(c, it) && f.mframe.ptr == SlotAddr(c, Slot(it, stage.k)))
    case Free(s, stage) =>
      && f.InFree? && ValidItem(c, s.item) && s.item == Item(f.thread, f.bagNum, f.setItem)
      && f.shadowinfo == SlotShadow(c, s) && FreeFollows(c, f.fframe, s, stage)
    case Rejected(_) => f == Aborted
    case Damaged(_) => f == Aborted
  }

  function FrameOf(frames: map<Tid, Frame>, t: Tid): Frame { if t in frames then frames[t] else Outside }

  ghost predicate FramesFollow(c: Config, frames: map<Tid, Frame>, m: System) {
    forall t :: FrameFollows(c, FrameOf(frames, t), PCOf(m, t))
  }

  // ------------------------------------------------------------ steps of an allocation

  /** The heap stays, a thread, a lock or the live set moves. */
  ghost method Align(b: BibopHeap, m': System)
    requires b.Follows() && m'.heap == b.m.heap
    modifies b`m
    ensures b.Follows() && b.m == m'
  {
    b.m := m';
  }

  lemma TakesHead(h: Heap, it: Item)
    requires ListOf(h, it).next.To?
    ensures TakeHead(h, it).1 == ListOf(h, it).next.node
  {
  }

  lemma EntryAddr(c: Config, s: Slot)
    requires ValidItem(c, s.item)
    ensures c.shadowBegin <= SlotShadow(c, s)
    ensures GetAddrFromShadowInfo(c, SlotShadow(c, s), s.item.thread, s.item.bag) == SlotAddr(c, s)
  {
    ShadowToAddr(c, LocOf(c, s));
  }

  method HasFreeSlot(b: BibopHeap, thread: nat, bagNum: nat, setItem: nat) returns (listed: bool)
    requires b.Follows() && ValidItem(b.c, Item(thread, bagNum, setItem))
    requires var d := ListOf(b.m.heap, Item(thread, bagNum, setItem)); d.next.Null? || d.next.To?
    ensures listed <==> ListOf(b.m.heap, Item(thread, bagNum, setItem)).next.To?
  {
    assert RecordFollows(b.c, b.threadBag[thread, bagNum], b.m.heap, Item(thread, bagNum, setItem));
    listed := !IsDLLEmpty(b.threadBag[thread, bagNum].freelist[setItem]);
  }

  /** The free-list test and the removal, under the lock. */
  method ListStep(b: BibopHeap, t: Tid, f: Frame, ghost guard: bool) returns (f': Frame)
    requires b.Follows() && GoodButBytes(b.c, b.m) && FrameFollows(b.c, f, PCOf(b.m, t))
    requires PCOf(b.m, t).Malloc? && PCOf(b.m, t).stage.Locked?
    requires CanHappen(b.c, b.m, Continue(t, guard))
    modifies b`m, b.threadBag
    ensures b.Follows() && b.m == Perform(b.c, old(b.m), Continue(t, guard))
    ensures FrameFollows(b.c, f', PCOf(b.m, t))
  {
    hide GoodButBytes, BibopHeap.Follows, TakeHead;
    ghost var m, m', it := b.m, Perform(b.c, b.m, Continue(t, guard)), PCOf(b.m, t).it;
    ThreadStillValid(b.c, b.m, t);
    OwnSlotsStill(b.c, b.m, it);
    var listed := HasFreeSlot(b, f.thread, f.bagNum, f.setItem);
    if listed && !f.mframe.useBumpPointer {
      var shadowinfo := b.TakeFromList(f.thread, f.bagNum, f.setItem);
      TakesHead(m.heap, it);
      f' := f.(mframe := HasEntry(shadowinfo));
    } else {
      f' := f.(mframe := ToUnlock);
    }
    Align(b, m');
  }

  method ReadPosition(b: BibopHeap, thread: nat, bagNum: nat, setItem: nat) returns (ptr: nat)
    requires b.Follows() && ValidItem(b.c, Item(thread, bagNum, setItem))
    ensures var it := Item(thread, bagNum, setItem);
      ptr == SlotAddr(b.c, Slot(it, Pos(b.m.heap, it)))
  {
    assert RecordFollows(b.c, b.threadBag[thread, bagNum], b.m.heap, Item(thread, bagNum, setItem));
    ptr := b.threadBag[thread, bagNum].position[setItem];
  }

  /** The bump pointer is read without the lock, and advanced in a later step. */
  method BumpStep(b: BibopHeap, t: Tid, f: Frame, guard: bool) returns (f': Frame)
    requires b.Follows() && GoodButBytes(b.c, b.m) && FrameFollows(b.c, f, PCOf(b.m, t))
    requires PCOf(b.m, t).Malloc? && (PCOf(b.m, t).stage.Bumping? || PCOf(b.m, t).stage.Read?)
    modifies b`m, b`guards, b.threadBag
    ensures b.Follows() && b.m == Perform(b.c, old(b.m), Continue(t, guard))
    ensures FrameFollows(b.c, f', PCOf(b.m, t))
  {
    hide GoodButBytes, BibopHeap.Follows, Advance, AddrOf, LocOf;
    ghost var m', it := Perform(b.c, b.m, Continue(t, guard)), PCOf(b.m, t).it;
    ThreadStillValid(b.c, b.m, t);
    if f.mframe.ToRead? {
      var ptr := ReadPosition(b, f.thread, f.bagNum, f.setItem);
      f' := f.(mframe := HasPointer(ptr));
    } else {
      var position := b.TakeFromBump(f.thread, f.bagNum, f.setItem, guard);
      f' := f.(mframe := HasObject(f.mframe.ptr));
    }
    Align(b, m');
  }

  /** The canary, and then the sentinel. */
  method SealStep(b: BibopHeap, t: Tid, f: Frame, ghost guard: bool) returns (f': Frame)
    requires b.Follows() && GoodButBytes(b.c, b.m) && FrameFollows(b.c, f, PCOf(b.m, t))
    requires PCOf(b.m, t).Malloc? && (PCOf(b.m, t).stage.Got? || PCOf(b.m, t).stage.Sealed?)
    modifies b`m, b`mem, b`shadow
    ensures b.Follows() && b.m == Perform(b.c, old(b.m), Continue(t, guard))
    ensures FrameFollows(b.c, f', PCOf(b.m, t))
  {
    hide GoodButBytes, BibopHeap.Follows, SlotAddr, WriteCanary, MarkAllocated, CanaryIntact;
    ghost var m', s := Perform(b.c, b.m, Continue(t, guard)), PCOf(b.m, t).stage.got;
    ThreadStillValid(b.c, b.m, t);
    if f.mframe.HasObject? {
      b.Seal(f.thread, f.bagNum, f.mframe.ptr, s);
      f' := f.(mframe := ToMark(f.mframe.ptr));
    } else {
      b.Mark(f.thread, f.bagNum, f.mframe.ptr, s);
      f' := Outside;
    }
    Align(b, m');
  }

  /** The lock is taken or returned; an entry off the list becomes a pointer. */
  method LockStep(b: BibopHeap, t: Tid, f: Frame, ghost guard: bool) returns (f': Frame)
    requires b.Follows() && GoodButBytes(b.c, b.m) && FrameFollows(b.c, f, PCOf(b.m, t)) && PCOf(b.m, t).Malloc?
    requires CanHappen(b.c, b.m, Continue(t, guard))
    requires f.mframe.ToLock? || f.mframe.HasEntry? || f.mframe.ToUnlock?
    modifies b`m
    ensures b.Follows() && b.m == Perform(b.c, old(b.m), Continue(t, guard))
    ensures FrameFollows(b.c, f', PCOf(b.m, t))
  {
    hide GoodButBytes, BibopHeap.Follows, SlotAddr, SlotShadow, GetAddrFromShadowInfo;
    ghost var m' := Perform(b.c, b.m, Continue(t, guard));
    ThreadStillValid(b.c, b.m, t);
    match f.mframe {
      case ToLock(useBumpPointer) => f' := f.(mframe := HasLock(useBumpPointer));
      case HasEntry(shadowinfo) =>
        EntryAddr(b.c, PCOf(b.m, t).stage.got);
        f' := f.(mframe := HasObject(GetAddrFromShadowInfo(b.c, shadowinfo, f.thread, f.bagNum)));
      case ToUnlock => f' := f.(mframe := ToRead);
    }
    Align(b, m');
  }

  /** One step of `allocateSmallObject`. */
  method MallocStepOnAddresses(b: BibopHeap, t: Tid, f: Frame, guard: bool) returns (f': Frame)
    requires b.Follows() && GoodButBytes(b.c, b.m) && FrameFollows(b.c, f, PCOf(b.m, t)) && PCOf(b.m, t).Malloc?
    requires CanHappen(b.c, b.m, Continue(t, guard))
    modifies b`m, b`mem, b`shadow, b`guards, b.threadBag
    ensures b.Follows() && b.m == Perform(b.c, old(b.m), Continue(t, guard))
    ensures FrameFollows(b.c, f', PCOf(b.m, t))
  {
    hide GoodButBytes, BibopHeap.Follows, SlotAddr, SlotShadow, MallocStep;
    match f.mframe {
      case HasLock(_) => f' := ListStep(b, t, f, guard);
      case ToRead => f' := BumpStep(b, t, f, guard);
      case HasPointer(_) => f' := BumpStep(b, t, f, guard);
      case HasObject(_) => f' := SealStep(b, t, f, guard);
      case ToMark(_) => f' := SealStep(b, t, f, guard);
      case _ => f' := LockStep(b, t, f, guard);
    }
  }

  // ------------------------------------------------------------ steps of a free

  /** The walk before it starts: two slots to the left and two to the right. */
  lemma WalkStarts(s: Slot)
    ensures Ahead(s, Left, 0) == Neighbours(s)
  {
  }

  /** The next entry the walk looks at: one further, or back at the slot and to the right. */
  method NextToCheck(b: BibopHeap, r: PerThreadBag, shadowinfo: nat, move: Direction, pos: nat, canaryShadow: nat,
                     ghost s: Slot)
      returns (there: Option<(Direction, nat, nat)>)
    requires WalkFollows(b.c, s, move, pos, canaryShadow, Ahead(s, move, pos)) && shadowinfo == SlotShadow(b.c, s)
    requires StaticFields(b.c, r, s.item.thread, s.item.bag)
    requires r.nextShadowHeapObjectOffset == NextShadowHeapObjectOffset(b.c, s.item.bag)
    ensures there.None? <==> Ahead(s, move, pos) == []
    ensures there.Some? ==> var (move', pos', entry) := there.value;
      && WalkFollows(b.c, s, move', pos', entry, Ahead(s, move, pos)[1..])
      && WalkSlot(s, move', pos') == Ahead(s, move, pos)[0]
    decreases if move == Left then 1 else 0
  {
    hide SlotShadow, GetNextCanaryNeighbor, StaticFields, NextShadowHeapObjectOffset;
    ghost var at := WalkSlot(s, move, pos);
    if pos < 2 {
      NeighbourIsAdjacent(b.c, at);
      var n := b.NextCanaryNeighbor(r, canaryShadow, move, s.item);
      if n.Some? {
        return Some((move, pos + 1, n.value));
      }
    }
    if move == Right {
      return None;
    }
    there := NextToCheck(b, r, shadowinfo, Right, 0, shadowinfo, s);
  }

  method RecordOf(b: BibopHeap, thread: nat, bagNum: nat, setItem: nat) returns (r: PerThreadBag)
    requires b.Follows() && ValidItem(b.c, Item(thread, bagNum, setItem))
    ensures r == b.threadBag[thread, bagNum] && StaticFields(b.c, r, thread, bagNum)
    ensures r.nextShadowHeapObjectOffset == NextShadowHeapObjectOffset(b.c, bagNum)
  {
    r := b.threadBag[thread, bagNum];
    assert RecordFollows(b.c, r, b.m.heap, Item(thread, bagNum, setItem));
  }

  method EntryFree(b: BibopHeap, shadowinfo: nat, ghost s: Slot) returns (free: bool)
    requires b.Follows() && ValidItem(b.c, s.item) && shadowinfo == SlotShadow(b.c, s)
    ensures free <==> ObjectFree(b.m.heap, s)
  {
    assert Next(b.shadow, Ptr(b.c, s)) == EncodeLink(b.c, Next(b.m.heap.link, s));
    free := Next(b.shadow, shadowinfo) != Sentinel;
  }

  /** The next neighbour's own link is looked at; after the last one the lock is taken. */
  method WalkStep(b: BibopHeap, t: Tid, f: Frame, ghost guard: bool) returns (f': Frame)
    requires b.Follows() && GoodButBytes(b.c, b.m) && FrameFollows(b.c, f, PCOf(b.m, t))
    requires PCOf(b.m, t).Free? && PCOf(b.m, t).fstage.Walk?
    requires CanHappen(b.c, b.m, Continue(t, guard))
    modifies b`m
    ensures b.Follows() && b.m == Perform(b.c, old(b.m), Continue(t, guard))
    ensures FrameFollows(b.c, f', PCOf(b.m, t))
  {
    hide GoodButBytes, BibopHeap.Follows, Ahead, SlotShadow, SlotAddr;
    ghost var m', s := Perform(b.c, b.m, Continue(t, guard)), PCOf(b.m, t).slot;
    var r := RecordOf(b, f.thread, f.bagNum, f.setItem);
    var there := NextToCheck(b, r, f.shadowinfo, f.fframe.move, f.fframe.pos, f.fframe.canaryShadow, s);
    if there.None? {
      f' := f.(fframe := ToInsert);
    } else {
      var (move, pos, entry) := there.value;
      ghost var n := WalkSlot(s, move, pos);
      var free := EntryFree(b, entry, n);
      if free {
        f' := f.(fframe := Walking(move, pos, entry));
      } else {
        EntryAddr(b.c, n);
        SealAddresses(b.c, n);
        var canary: nat := GetAddrFromShadowInfo(b.c, entry, f.thread, f.bagNum) + r.classSize - 1;
        f' := f.(fframe := Checking(canary, move, pos, entry));
      }
    }
    Align(b, m');
  }

  method CanaryAt(b: BibopHeap, canary: nat) returns (intact: bool)
    requires b.Follows()
    ensures intact <==> Byte(b.m.heap.mem, canary) == CANARY_SENTINEL
  {
    intact := Byte(b.mem, canary) == CANARY_SENTINEL;
  }

  /** A canary is read. */
  method CheckStep(b: BibopHeap, t: Tid, f: Frame, ghost guard: bool) returns (f': Frame)
    requires b.Follows() && GoodButBytes(b.c, b.m) && FrameFollows(b.c, f, PCOf(b.m, t))
    requires PCOf(b.m, t).Free? && PCOf(b.m, t).fstage.Probe?
    modifies b`m
    ensures b.Follows() && b.m == Perform(b.c, old(b.m), Continue(t, guard))
    ensures FrameFollows(b.c, f', PCOf(b.m, t))
  {
    hide GoodButBytes, BibopHeap.Follows, CanaryAddr, WalkFollows, SlotShadow;
    ghost var m' := Perform(b.c, b.m, Continue(t, guard));
    var intact := CanaryAt(b, f.fframe.canary);
    if !intact {
      f' := Aborted;
    } else {
      f' := f.(fframe := Walking(f.fframe.move, f.fframe.pos, f.fframe.canaryShadow));
    }
    Align(b, m');
  }

  /** The insertion under the lock, and the unlock. */
  method InsertStep(b: BibopHeap, t: Tid, f: Frame, ghost guard: bool) returns (f': Frame)
    requires b.Follows() && GoodButBytes(b.c, b.m) && FrameFollows(b.c, f, PCOf(b.m, t))
    requires PCOf(b.m, t).Free? && (PCOf(b.m, t).fstage.Inserting? || PCOf(b.m, t).fstage.Inserted?)
    modifies b`m, b`shadow, b.threadBag
    ensures b.Follows() && b.m == Perform(b.c, old(b.m), Continue(t, guard))
    ensures FrameFollows(b.c, f', PCOf(b.m, t))
  {
    hide GoodButBytes, BibopHeap.Follows, PutTail, SlotShadow;
    ghost var m', s := Perform(b.c, b.m, Continue(t, guard)), PCOf(b.m, t).slot;
    if f.fframe.ToInsert? {
      OwnSlotsStill(b.c, b.m, s.item);
      b.InsertAtTail(f.thread, f.bagNum, f.setItem, f.shadowinfo, s);
      f' := f.(fframe := ToRelease);
    } else {
      f' := Outside;
    }
    Align(b, m');
  }

  /** One step of `freeSmallObject`. */
  method FreeStepOnAddresses(b: BibopHeap, t: Tid, f: Frame, ghost guard: bool) returns (f': Frame)
    requires b.Follows() && GoodButBytes(b.c, b.m) && FrameFollows(b.c, f, PCOf(b.m, t)) && PCOf(b.m, t).Free?
    requires CanHappen(b.c, b.m, Continue(t, guard))
    modifies b`m, b`shadow, b.threadBag
    ensures b.Follows() && b.m == Perform(b.c, old(b.m), Continue(t, guard))
    ensures FrameFollows(b.c, f', PCOf(b.m, t))
  {
    hide GoodButBytes, BibopHeap.Follows, SlotShadow, WalkFollows, FreeStep;
    match f.fframe {
      case Checking(_, _, _, _) => f' := CheckStep(b, t, f, guard);
      case Walking(_, _, _) => f' := WalkStep(b, t, f, guard);
      case _ => f' := InsertStep(b, t, f, guard);
    }
  }

  // ------------------------------------------------------------ calls

  /** The start of `allocateSmallObject`: size class, set item and the odds of bumping. */
  method EnterMalloc(b: BibopHeap, t: Tid, threadIndex: nat, size: nat, random: nat) returns (f: Frame)
    requires b.Follows() && CanHappen(b.c, b.m, CallMalloc(t, size, random))
    requires threadIndex == b.m.threads.running[t]
    modifies b`m
    ensures b.Follows() && b.m == Perform(b.c, old(b.m), CallMalloc(t, size, random))
    ensures FrameFollows(b.c, f, PCOf(b.m, t))
  {
    hide BibopHeap.Follows, ClassSizeFor, BagNum;
    ghost var m' := Perform(b.c, b.m, CallMalloc(t, size, random));
    BagForFits(b.c, size);
    var bagNum: nat := BagNum(ClassSizeFor(WithCanary(size)));
    f := InMalloc(threadIndex, bagNum, random % SET_SIZE, ToLock(random % RANDOMIZER == 0));
    Align(b, m');
  }

  /** The start of `freeSmallObject`: the address is decoded and the sentinel test made. */
  method EnterFree(b: BibopHeap, t: Tid, addr: nat, ghost s: Slot) returns (f: Frame)
    requires b.Follows() && CanHappen(b.c, b.m, CallFree(t, s)) && addr == UserAddr(b.c, s)
    modifies b`m
    ensures b.Follows() && b.m == Perform(b.c, old(b.m), CallFree(t, s))
    ensures FrameFollows(b.c, f, PCOf(b.m, t))
  {
    hide BibopHeap.Follows, SlotShadow, SlotAddr, Ahead, Neighbours, ObjectFree, GetShadowObjectInfo, BagOfAddr;
    ghost var m' := Perform(b.c, b.m, CallFree(t, s));
    DecodeSlot(b.c, s);
    var info := GetShadowObjectInfo(b.c, addr);
    var free := EntryFree(b, info.shadow, s);
    if free {
      f := Aborted;
    } else {
      var r := RecordOf(b, info.thread, info.bag, info.setItem);
      SealAddresses(b.c, s);
      WalkStarts(s);
      var own := Checking(addr + r.classSize - 1, Left, 0, info.shadow);
      f := InFree(info.thread, info.bag, info.setItem, info.shadow, own);
    }
    Align(b, m');
  }

  // ------------------------------------------------------------ any interleaving

  /** What clients and threads ask of the heap, in terms of addresses. */
  datatype Request =
    | AskMalloc(t: Tid, threadIndex: nat, size: nat, random: nat)
    | AskFree(t: Tid, addr: nat)
    | GoOn(t: Tid, low: bool)
    | Store(addr: nat, value: int)
    | Elsewhere

  /** A byte of some slot: what lies outside of them no client can write without a fault. */
  ghost predicate InSlots(c: Config, a: nat) { exists s: Slot :: Owns(c, s, a) }

  ghost predicate Asks(c: Config, m: System, r: Request, a: Action) {
    match a
    case CallMalloc(t, size, random) => t in m.threads.running && r == AskMalloc(t, m.threads.running[t], size, random)
    case CallFree(t, s) => r == AskFree(t, UserAddr(c, s))
    case Continue(t, low) => r == GoOn(t, low)
    case ClientWrite(s, offset, value) =>
      r == Store(UserAddr(c, s) + offset, value) && InSlots(c, UserAddr(c, s) + offset)
    case ThreadEvent(_) => r == Elsewhere
  }

  ghost predicate AskAll(c: Config, m: System, requests: seq<Request>, run: seq<Action>)
    requires Lasts(c, m, run)
    decreases |run|
  {
    && |requests| == |run|
    && (run != [] ==> Asks(c, m, requests[0], run[0]) && AskAll(c, Perform(c, m, run[0]), requests[1..], run[1..]))
  }

  function Actor(a: Action): Option<Tid> {
    match a
    case CallMalloc(t, _, _) => Some(t)
    case CallFree(t, _) => Some(t)
    case Continue(t, _) => Some(t)
    case _ => None
  }

  /** A step moves the program counter of one thread at most. */
  lemma OthersStand(c: Config, m: System, a: Action, u: Tid)
    requires CanHappen(c, m, a) && Actor(a) != Some(u)
    ensures PCOf(Perform(c, m, a), u) == PCOf(m, u)
  {
  }

  lemma OneFrameMoved(c: Config, frames: map<Tid, Frame>, m: System, a: Action, t: Tid, f: Frame)
    requires FramesFollow(c, frames, m) && CanHappen(c, m, a) && Actor(a) == Some(t)
    requires FrameFollows(c, f, PCOf(Perform(c, m, a), t))
    ensures FramesFollow(c, frames[t := f], Perform(c, m, a))
  {
    hide FrameFollows, Perform, CanHappen;
    forall u ensures FrameFollows(c, FrameOf(frames[t := f], u), PCOf(Perform(c, m, a), u)) {
      if u != t {
        OthersStand(c, m, a, u);
        assert FrameFollows(c, FrameOf(frames, u), PCOf(m, u));
      }
    }
  }

  lemma NoFrameMoved(c: Config, frames: map<Tid, Frame>, m: System, a: Action)
    requires FramesFollow(c, frames, m) && CanHappen(c, m, a) && Actor(a) == None
    ensures FramesFollow(c, frames, Perform(c, m, a))
  {
    hide FrameFollows, Perform, CanHappen;
    forall u ensures FrameFollows(c, FrameOf(frames, u), PCOf(Perform(c, m, a), u)) {
      OthersStand(c, m, a, u);
      assert FrameFollows(c, FrameOf(frames, u), PCOf(m, u));
    }
  }

  /** A thread inside the heap takes its next step. */
  method Proceed(b: BibopHeap, t: Tid, f: Frame, low: bool) returns (f': Frame)
    requires b.Follows() && GoodButBytes(b.c, b.m) && FrameFollows(b.c, f, PCOf(b.m, t))
    requires CanHappen(b.c, b.m, Continue(t, low))
    modifies b`m, b`mem, b`shadow, b`guards, b.threadBag
    ensures b.Follows() && b.m == Perform(b.c, old(b.m), Continue(t, low))
    ensures FrameFollows(b.c, f', PCOf(b.m, t))
  {
    hide GoodButBytes, BibopHeap.Follows, MallocFollows, FreeFollows, SlotAddr, SlotShadow;
    if f.InMalloc? {
      f' := MallocStepOnAddresses(b, t, f, low);
    } else {
      f' := FreeStepOnAddresses(b, t, f, low);
    }
  }

  /** A client's store, to any byte of a slot. */
  method StoreStep(b: BibopHeap, addr: nat, value: int, ghost s: Slot, ghost offset: nat)
    requires b.Follows() && addr == UserAddr(b.c, s) + offset && InSlots(b.c, addr)
    modifies b`m, b`mem
    ensures b.Follows() && b.m == Perform(b.c, old(b.m), ClientWrite(s, offset, value))
  {
    hide BibopHeap.Follows, Owns;
    ghost var owner: Slot :| Owns(b.c, owner, addr);
    b.WriteByte(addr, value, owner);
  }

  lemma SameHeap(c: Config, m: System, a: Action)
    requires a.ThreadEvent? && CanHappen(c, m, a)
    ensures Perform(c, m, a).heap == m.heap
  {
  }

  /** Every step of the machine is one step of the code on addresses, whatever clients have
      written to slots, the step that ends in the damage report included. */
  method Act(b: BibopHeap, frames: map<Tid, Frame>, r: Request, ghost a: Action) returns (frames': map<Tid, Frame>)
    requires b.Follows() && GoodButBytes(b.c, b.m) && FramesFollow(b.c, frames, b.m)
    requires CanHappen(b.c, b.m, a) && Tolerated(b.m, a) && Asks(b.c, b.m, r, a)
    modifies b`m, b`mem, b`shadow, b`guards, b.threadBag
    ensures b.Follows() && FramesFollow(b.c, frames', b.m)
    ensures b.m == Perform(b.c, old(b.m), a) && (Reports(b.c, old(b.m), a) || GoodButBytes(b.c, b.m))
  {
    hide BibopHeap.Follows, GoodButBytes, FrameFollows, Perform, UserAddr, Promised;
    ghost var m := b.m;
    StepKeepsButBytes(b.c, m, a);
    frames' := frames;
    match r {
      case AskMalloc(t, threadIndex, size, random) =>
        var f := EnterMalloc(b, t, threadIndex, size, random);
        frames' := frames[t := f];
        OneFrameMoved(b.c, frames, m, a, t, f);
      case AskFree(t, addr) =>
        var f := EnterFree(b, t, addr, a.slot);
        frames' := frames[t := f];
        OneFrameMoved(b.c, frames, m, a, t, f);
      case GoOn(t, low) =>
        var f := Proceed(b, t, FrameOf(frames, t), low);
        frames' := frames[t := f];
        OneFrameMoved(b.c, frames, m, a, t, f);
      case Store(addr, value) =>
        StoreStep(b, addr, value, a.slot, a.offset);
        NoFrameMoved(b.c, frames, m, a);
      case Elsewhere =>
        SameHeap(b.c, m, a);
        Align(b, Perform(b.c, m, a));
        NoFrameMoved(b.c, frames, m, a);
    }
  }

  /** The code on addresses, from any state of its threads, through any interleaving: it ends
      where the machine does. */
  method Replay(b: BibopHeap, frames: map<Tid, Frame>, requests: seq<Request>, ghost run: seq<Action>)
      returns (frames': map<Tid, Frame>)
    requires b.Follows() && GoodButBytes(b.c, b.m) && FramesFollow(b.c, frames, b.m)
    requires Lasts(b.c, b.m, run) && AskAll(b.c, b.m, requests, run)
    modifies b`m, b`mem, b`shadow, b`guards, b.threadBag
    ensures b.Follows() && GoodButBytes(b.c, b.m) && FramesFollow(b.c, frames', b.m)
    ensures b.m == Until(b.c, old(b.m), run)
    decreases |requests|
  {
    hide BibopHeap.Follows, GoodButBytes, FramesFollow, Perform, CanHappen, Tolerated, Asks;
    if requests == [] {
      return frames;
    }
    frames' := Act(b, frames, requests[0], run[0]);
    frames' := Replay(b, frames', requests[1..], run[1..]);
  }

  /** From start-up on, with no thread inside the heap. */
  method ReplayFromStart(c: Config, requests: seq<Request>, ghost run: seq<Action>)
      returns (b: BibopHeap, frames: map<Tid, Frame>)
    requires c.Valid() && Lasts(c, BOOT, run) && AskAll(c, BOOT, requests, run)
    ensures fresh(b) && b.c == c && b.Follows() && FramesFollow(c, frames, b.m) && b.m == Until(c, BOOT, run)
  {
    hide BibopHeap.Follows, GoodButBytes, Lasts, AskAll, Until;
    b := new BibopHeap.Initialize(c);
    b.ValidIsOrderly();
    assert FramesFollow(c, map[], BOOT);
    frames := Replay(b, map[], requests, run);
  }
}
