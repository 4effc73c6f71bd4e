/** The small-object heap as a machine whose steps are those of `allocateSmallObject` and
    `freeSmallObject` at the grain of lock, unlock and single writes, run by any number of
    threads in any order. */
module Machine {
  import opened Layout
  import opened Slots
  import opened FreeLists
  import opened Options
  import opened Sequences
  import opened Threads

  const CANARY_SENTINEL: int := 0x7B

  // ------------------------------------------------------------ shared memory

  /** Bump pointers (as slot numbers), free lists, the shadow links, the bytes of the heap
      mapping and the slots given up to random guards. Fresh memory reads as zero. */
  datatype Heap = Heap(
    pos: map<Item, nat>,
    list: map<Item, DList<Slot>>,
    link: Cells<Slot>,
    mem: map<nat, int>,
    skipped: set<Slot>)

  const EMPTY_HEAP: Heap := Heap(map[], map[], map[], map[], {})

  function Pos(h: Heap, it: Item): nat { if it in h.pos then h.pos[it] else 0 }

  function ListOf(h: Heap, it: Item): DList<Slot> { if it in h.list then h.list[it] else InitDLL() }

  function Byte(mem: map<nat, int>, a: nat): int { if a in mem then mem[a] else 0 }

  function ObjectFree(h: Heap, s: Slot): bool { Next(h.link, s) != Sentinel }

  /** The byte behind the usable part of an object. */
  ghost function CanaryAddr(c: Config, s: Slot): nat {
    if ValidItem(c, s.item) then SlotAddr(c, s) + ClassSize(s.item.bag) - 1 else 0
  }

  ghost predicate PageAligned(c: Config, s: Slot) {
    ValidItem(c, s.item) && SlotAddr(c, s) % PAGE == 0
  }

  function TakeHead(h: Heap, it: Item): (Heap, Slot)
    requires !IsDLLEmpty(ListOf(h, it)) && ListOf(h, it).next.To?
  {
    var (d, s) := RemoveDLLHead(h.link, ListOf(h, it));
    (h.(list := h.list[it := d]), s)
  }

  function PutTail(h: Heap, s: Slot): Heap {
    var (cells, d) := InsertDLLTail(h.link, ListOf(h, s.item), s);
    h.(link := cells, list := h.list[s.item := d])
  }

  /** The slots `[lo, hi)` of an item. */
  function Range(it: Item, lo: nat, hi: nat): set<Slot> {
    set k: nat | lo <= k < hi :: Slot(it, k)
  }

  /** `incrementBumpPointer`, and `tryRandomGuardPage` when the new position is page
      aligned and the random number says so. */
  ghost function Advance(c: Config, h: Heap, it: Item, guard: bool): Heap {
    var k := Pos(h, it) + 1;
    if guard && PageAligned(c, Slot(it, k)) then
      var k' := k + SkipCount(it.bag);
      h.(pos := h.pos[it := k'], skipped := h.skipped + Range(it, k, k'))
    else h.(pos := h.pos[it := k])
  }

  ghost function WriteCanary(c: Config, h: Heap, s: Slot): Heap {
    h.(mem := h.mem[CanaryAddr(c, s) := CANARY_SENTINEL])
  }

  function MarkAllocated(h: Heap, s: Slot): Heap { h.(link := h.link[s := Sentinel]) }

  // ------------------------------------------------------------ threads

  /** Where a thread stands inside `allocateSmallObject`. */
  datatype MallocStage =
    | Called(useBump: bool)
    | Locked(useBump: bool)
    | Taken(got: Slot)     // removed from the free list, lock still held
    | Leaving              // nothing to take, lock still held
    | Bumping              // lock released
    | Read(k: nat)         // `ptr = *position` done
    | Got(got: Slot)       // `ptr` is final
    | Sealed(got: Slot)    // canary written

  /** Where a thread stands inside `freeSmallObject`. */
  datatype FreeStage =
    | Probe(n: Slot, todo: seq<Slot>)  // about to read the canary of `n`
    | Walk(todo: seq<Slot>)            // neighbours still to look at
    | Inserting                        // lock held
    | Inserted                         // on the list, lock still held

  datatype PC =
    | Idle
    | Malloc(size: nat, it: Item, stage: MallocStage)
    | Free(slot: Slot, fstage: FreeStage)
    | Rejected(slot: Slot)   // "Double free or invalid free"
    | Damaged(slot: Slot)    // "canary value … not intact"

  datatype System = System(
    heap: Heap,
    live: set<Slot>,           // handed to a client and not yet freed
    lock: map<Item, Tid>,
    pc: map<Tid, PC>,
    threads: Table)

  function PCOf(m: System, t: Tid): PC { if t in m.pc then m.pc[t] else Idle }

  function Goto(m: System, t: Tid, p: PC): System { m.(pc := m.pc[t := p]) }

  /** The two neighbours on either side, in the order the canaries are inspected. */
  function Neighbours(s: Slot): seq<Slot> {
    (if s.k >= 1 then [s.(k := s.k - 1)] else [])
    + (if s.k >= 2 then [s.(k := s.k - 2)] else [])
    + [s.(k := s.k + 1), s.(k := s.k + 2)]
  }

  datatype Action =
    | CallMalloc(t: Tid, size: nat, random: nat)
    | CallFree(t: Tid, slot: Slot)
    | Continue(t: Tid, guard: bool)
    | ClientWrite(slot: Slot, offset: nat, value: int)
    | ThreadEvent(e: Event)

  /** The slot a thread is in the middle of freeing. */
  function Freeing(p: PC): Option<Slot> {
    if p.Free? && !p.fstage.Inserted? then Some(p.slot) else None
  }

  /** What the code itself lets happen: a thread enters the heap from the moment it exists,
      and passes a lock when the lock is free. */
  ghost predicate CanHappen(c: Config, m: System, a: Action) {
    match a
    case CallMalloc(t, size, random) =>
      && c.Valid() && PCOf(m, t).Idle? && t in m.threads.running && m.threads.running[t] < c.Threads()
      && size < SIZE_LIMIT && !IsLarge(c, size)
    case CallFree(t, slot) => PCOf(m, t).Idle? && t in m.threads.running && ValidItem(c, slot.item)
    case Continue(t, _) =>
      (match PCOf(m, t)
       case Malloc(_, it, Called(_)) => it !in m.lock
       case Free(slot, Walk(todo)) => todo == [] ==> slot.item !in m.lock
       case Malloc(_, _, _) => true
       case Free(_, _) => true
       case _ => false)
    case ClientWrite(slot, offset, _) => true
    case ThreadEvent(e) => m.threads.Shape() && Legal(m.threads, e) && (e.End? ==> PCOf(m, e.tid).Idle?)
  }

  /** What clients owe the heap: no two of them free one object at the same time, they write
      only to the usable part of objects they hold, and they join threads `_xmap` knows. */
  predicate Promised(m: System, a: Action) {
    match a
    case CallFree(t, slot) => forall u <- m.pc :: Freeing(m.pc[u]) != Some(slot)
    case ClientWrite(slot, offset, _) => slot in m.live && offset + 1 < ClassSize(slot.item.bag)
    case ThreadEvent(e) => Known(m.threads, e)
    case _ => true
  }

  ghost predicate Enabled(c: Config, m: System, a: Action) {
    CanHappen(c, m, a) && Promised(m, a)
  }

  // ------------------------------------------------------------ steps

  ghost function MallocStep(c: Config, m: System, t: Tid, size: nat, it: Item, stage: MallocStage, guard: bool): System
  {
    match stage
    case Called(useBump) => Goto(m.(lock := m.lock[it := t]), t, Malloc(size, it, Locked(useBump)))
    case Locked(useBump) =>
      if !IsDLLEmpty(ListOf(m.heap, it)) && !useBump && ListOf(m.heap, it).next.To? then
        var (h, s) := TakeHead(m.heap, it);
        Goto(m.(heap := h), t, Malloc(size, it, Taken(s)))
      else Goto(m, t, Malloc(size, it, Leaving))
    case Taken(s) => Goto(m.(lock := m.lock - {it}), t, Malloc(size, it, Got(s)))
    case Leaving => Goto(m.(lock := m.lock - {it}), t, Malloc(size, it, Bumping))
    case Bumping => Goto(m, t, Malloc(size, it, Read(Pos(m.heap, it))))
    case Read(k) => Goto(m.(heap := Advance(c, m.heap, it, guard)), t, Malloc(size, it, Got(Slot(it, k))))
    case Got(s) => Goto(m.(heap := WriteCanary(c, m.heap, s)), t, Malloc(size, it, Sealed(s)))
    case Sealed(s) => Goto(m.(heap := MarkAllocated(m.heap, s), live := m.live + {s}), t, Idle)
  }

  ghost function FreeStep(c: Config, m: System, t: Tid, s: Slot, stage: FreeStage): System {
    match stage
    case Probe(n, todo) =>
      if Byte(m.heap.mem, CanaryAddr(c, n)) != CANARY_SENTINEL then Goto(m, t, Damaged(n))
      else Goto(m, t, Free(s, Walk(todo)))
    case Walk(todo) =>
      if todo == [] then Goto(m.(lock := m.lock[s.item := t]), t, Free(s, Inserting))
      else if ObjectFree(m.heap, todo[0]) then Goto(m, t, Free(s, Walk(todo[1..])))
      else Goto(m, t, Free(s, Probe(todo[0], todo[1..])))
    case Inserting => Goto(m.(heap := PutTail(m.heap, s)), t, Free(s, Inserted))
    case Inserted => Goto(m.(lock := m.lock - {s.item}), t, Idle)
  }

  ghost function UserAddr(c: Config, s: Slot): nat {
    if ValidItem(c, s.item) then SlotAddr(c, s) else 0
  }

  ghost function Perform(c: Config, m: System, a: Action): System
    requires CanHappen(c, m, a)
  {
    match a
    case CallMalloc(t, size, random) =>
      BagForFits(c, size);
      var it := Item(m.threads.running[t], BagFor(size), random % SET_SIZE);
      Goto(m, t, Malloc(size, it, Called(random % RANDOMIZER == 0)))
    case CallFree(t, slot) =>
      if ObjectFree(m.heap, slot) then Goto(m, t, Rejected(slot))
      else Goto(m.(live := m.live - {slot}), t, Free(slot, Probe(slot, Neighbours(slot))))
    case Continue(t, guard) =>
      (match PCOf(m, t)
       case Malloc(size, it, stage) => MallocStep(c, m, t, size, it, stage, guard)
       case Free(s, stage) => FreeStep(c, m, t, s, stage)
       case _ => m)
    case ClientWrite(slot, offset, value) =>
      m.(heap := m.heap.(mem := m.heap.mem[UserAddr(c, slot) + offset := value]))
    case ThreadEvent(e) => m.(threads := Threads.Apply(m.threads, e))
  }

  // ------------------------------------------------------------ the invariant

  /** The one place a slot is in. */
  datatype Place = Nowhere | Live | Guarded | Queued | With(t: Tid)

  function PlaceOf(P: map<Slot, Place>, s: Slot): Place { if s in P then P[s] else Nowhere }

  function QueueOf(q: map<Item, seq<Slot>>, it: Item): seq<Slot> { if it in q then q[it] else [] }

  /** The slot a thread has taken out of the heap or from the client. */
  function Holding(p: PC): Option<Slot> {
    match p
    case Malloc(_, _, Taken(s)) => Some(s)
    case Malloc(_, _, Got(s)) => Some(s)
    case Malloc(_, _, Sealed(s)) => Some(s)
    case _ => Freeing(p)
  }

  function LockHeld(p: PC): Option<Item> {
    match p
    case Malloc(_, it, Locked(_)) => Some(it)
    case Malloc(_, it, Taken(_)) => Some(it)
    case Malloc(_, it, Leaving) => Some(it)
    case Free(s, Inserting) => Some(s.item)
    case Free(s, Inserted) => Some(s.item)
    case _ => None
  }

  ghost predicate CanaryIntact(c: Config, h: Heap, s: Slot) {
    ValidItem(c, s.item) && Byte(h.mem, CanaryAddr(c, s)) == CANARY_SENTINEL
  }

  /** The bump pointer has passed the slot without guarding it. */
  ghost predicate WasAllocated(h: Heap, s: Slot) {
    s.k < Pos(h, s.item) && s !in h.skipped
  }

  /** The header and the shadow links of `it` spell its queue, all of it free slots of `it`. */
  ghost predicate QueueSpelled(h: Heap, q: map<Item, seq<Slot>>, P: map<Slot, Place>, it: Item) {
    && IsQueue(h.link, ListOf(h, it), QueueOf(q, it))
    && forall r <- QueueOf(q, it) :: r.item == it && PlaceOf(P, r) == Queued
  }

  ghost predicate QueuesSpelled(h: Heap, q: map<Item, seq<Slot>>, P: map<Slot, Place>) {
    && (forall it :: QueueSpelled(h, q, P, it))
    && (forall s :: PlaceOf(P, s) == Queued ==> s in QueueOf(q, s.item))
  }

  ghost predicate PlacesMatch(c: Config, m: System, P: map<Slot, Place>) {
    && (forall s :: PlaceOf(P, s) == Live <==> s in m.live)
    && (forall s :: PlaceOf(P, s) == Guarded <==> s in m.heap.skipped)
    && (forall s :: PlaceOf(P, s) == Nowhere <==> s.k >= Pos(m.heap, s.item))
    && (forall t :: Holding(PCOf(m, t)).Some? ==> PlaceOf(P, Holding(PCOf(m, t)).value) == With(t))
    && (forall s :: PlaceOf(P, s).With? ==> Holding(PCOf(m, PlaceOf(P, s).t)) == Some(s))
    && (forall s :: PlaceOf(P, s) != Nowhere ==> ValidItem(c, s.item))
  }

  /** The sentinel stands in a slot's link from the end of its allocation to its re-insertion. */
  ghost predicate SentinelsMatch(c: Config, m: System, P: map<Slot, Place>) {
    && (forall s :: Next(m.heap.link, s) == Sentinel <==>
         PlaceOf(P, s) == Live || (PlaceOf(P, s).With? && Freeing(PCOf(m, PlaceOf(P, s).t)) == Some(s)))
    && (forall s :: Next(m.heap.link, s) == Sentinel ==> CanaryIntact(c, m.heap, s))
  }

  ghost predicate PCValid(c: Config, m: System, t: Tid) {
    match PCOf(m, t)
    case Idle => true
    case Malloc(size, it, stage) =>
      && t in m.threads.running && m.threads.running[t] == it.thread
      && ValidItem(c, it) && it.bag == BagFor(size) && size < SIZE_LIMIT && !IsLarge(c, size)
      && (match stage
          case Read(k) => k == Pos(m.heap, it)
          case Taken(s) => s.item == it
          case Got(s) => s.item == it
          case Sealed(s) => s.item == it && CanaryIntact(c, m.heap, s)
          case _ => true)
    case Free(s, stage) =>
      && t in m.threads.running && ValidItem(c, s.item)
      && (match stage
          case Probe(n, todo) =>
            CanaryIntact(c, m.heap, n) && WasAllocated(m.heap, n) && forall r <- todo :: r.item == s.item
          case Walk(todo) => forall r <- todo :: r.item == s.item
          case _ => true)
    case Rejected(_) => t in m.threads.running
    case Damaged(_) => false
  }

  ghost predicate LocksMatch(m: System) {
    && (forall it :: it in m.lock ==> LockHeld(PCOf(m, m.lock[it])) == Some(it))
    && (forall t :: LockHeld(PCOf(m, t)).Some? ==>
         LockHeld(PCOf(m, t)).value in m.lock && m.lock[LockHeld(PCOf(m, t)).value] == t)
  }

  ghost predicate Inv(c: Config, m: System, q: map<Item, seq<Slot>>, P: map<Slot, Place>) {
    && c.Valid() && Consistent(m.threads)
    && QueuesSpelled(m.heap, q, P)
    && PlacesMatch(c, m, P)
    && SentinelsMatch(c, m, P)
    && (forall t :: PCValid(c, m, t))
    && LocksMatch(m)
  }

  ghost predicate Good(c: Config, m: System) {
    exists q: map<Item, seq<Slot>>, P: map<Slot, Place> :: Inv(c, m, q, P)
  }

  // ------------------------------------------------------------ steps that only move a thread

  lemma GotoPC(m: System, t: Tid, p: PC)
    ensures forall u {:trigger PCOf(Goto(m, t, p), u)} :: PCOf(Goto(m, t, p), u) == if u == t then p else PCOf(m, u)
  {
  }

  lemma AcquireKeeps(m: System, t: Tid, it: Item, p: PC)
    requires LocksMatch(m) && it !in m.lock && LockHeld(PCOf(m, t)) == None && LockHeld(p) == Some(it)
    ensures LocksMatch(Goto(m.(lock := m.lock[it := t]), t, p))
  {
    var m1 := m.(lock := m.lock[it := t]);
    GotoPC(m1, t, p);
    assert forall u :: PCOf(m1, u) == PCOf(m, u);
  }

  lemma ReleaseKeeps(m: System, t: Tid, it: Item, p: PC)
    requires LocksMatch(m) && LockHeld(PCOf(m, t)) == Some(it) && LockHeld(p) == None
    ensures LocksMatch(Goto(m.(lock := m.lock - {it}), t, p))
  {
    var m1 := m.(lock := m.lock - {it});
    GotoPC(m1, t, p);
    assert forall u :: PCOf(m1, u) == PCOf(m, u);
  }

  lemma SameLockKeeps(m: System, t: Tid, p: PC)
    requires LocksMatch(m) && LockHeld(PCOf(m, t)) == LockHeld(p)
    ensures LocksMatch(Goto(m, t, p))
  {
    GotoPC(m, t, p);
  }

  /** The slots are seen through what the threads hold and free, nothing else of them. */
  lemma SameHoldings(c: Config, m: System, m': System, P: map<Slot, Place>)
    requires PlacesMatch(c, m, P) && SentinelsMatch(c, m, P)
    requires m'.heap == m.heap && m'.live == m.live
    requires forall u :: Holding(PCOf(m', u)) == Holding(PCOf(m, u)) && Freeing(PCOf(m', u)) == Freeing(PCOf(m, u))
    ensures PlacesMatch(c, m', P) && SentinelsMatch(c, m', P)
  {
  }

  /** Moving one thread's program counter, with locks to match, touches no slot. */
  lemma MoveKeeps(c: Config, m: System, m1: System, t: Tid, p: PC, q: map<Item, seq<Slot>>, P: map<Slot, Place>)
    requires Inv(c, m, q, P)
    requires m1 == m.(lock := m1.lock)
    requires Holding(p) == Holding(PCOf(m, t)) && Freeing(p) == Freeing(PCOf(m, t))
    requires PCValid(c, Goto(m1, t, p), t) && LocksMatch(Goto(m1, t, p))
    ensures Inv(c, Goto(m1, t, p), q, P)
  {
    var m' := Goto(m1, t, p);
    GotoPC(m1, t, p);
    assert forall u :: PCOf(m1, u) == PCOf(m, u);
    forall u ensures PCValid(c, m', u) {
      if u != t { assert PCValid(c, m, u); }
    }
    SameHoldings(c, m, m', P);
  }

  // ------------------------------------------------------------ steps that move a slot

  /** The other threads' views survive when bump pointers and canaries only grow. */
  lemma OthersValid(c: Config, m: System, m': System, t: Tid)
    requires forall u :: PCValid(c, m, u)
    requires m'.threads == m.threads && forall u :: u != t ==> PCOf(m', u) == PCOf(m, u)
    requires forall s :: CanaryIntact(c, m.heap, s) ==> CanaryIntact(c, m'.heap, s)
    requires m'.heap.pos == m.heap.pos && m'.heap.skipped == m.heap.skipped
    requires PCValid(c, m', t)
    ensures forall u :: PCValid(c, m', u)
  {
    forall u ensures PCValid(c, m', u) {
      if u != t { assert PCValid(c, m, u); }
    }
  }

  /** The places a slot below the bump pointer takes in turn. */
  predicate Turn(p: Place, t: Tid) { p == Live || p == Queued || p == With(t) }

  /** One slot changes place, into or out of the hands of one thread. */
  lemma PlaceMoved(c: Config, m: System, m': System, P: map<Slot, Place>, s: Slot, t: Tid, place: Place)
    requires PlacesMatch(c, m, P)
    requires forall u :: u != t ==> PCOf(m', u) == PCOf(m, u)
    requires m'.heap.pos == m.heap.pos && m'.heap.skipped == m.heap.skipped
    requires m'.live == if place == Live then m.live + {s} else m.live - {s}
    requires Turn(PlaceOf(P, s), t) && Turn(place, t)
    requires Holding(PCOf(m, t)) == (if PlaceOf(P, s) == With(t) then Some(s) else None)
    requires Holding(PCOf(m', t)) == (if place == With(t) then Some(s) else None)
    ensures PlacesMatch(c, m', P[s := place])
  {
    var P' := P[s := place];
    assert forall r :: PlaceOf(P', r) == if r == s then place else PlaceOf(P, r);
    assert forall it :: Pos(m'.heap, it) == Pos(m.heap, it);
  }

  lemma SentinelMoved(c: Config, m: System, m': System, P: map<Slot, Place>, s: Slot, t: Tid, place: Place)
    requires PlacesMatch(c, m, P) && SentinelsMatch(c, m, P)
    requires forall u :: u != t ==> PCOf(m', u) == PCOf(m, u)
    requires forall r :: r != s ==> (Next(m'.heap.link, r) == Sentinel <==> Next(m.heap.link, r) == Sentinel)
    requires m'.heap.mem == m.heap.mem
    requires Turn(place, t)
    requires Holding(PCOf(m, t)) == (if PlaceOf(P, s) == With(t) then Some(s) else None)
    requires Next(m'.heap.link, s) == Sentinel <==>
      place == Live || (place == With(t) && Freeing(PCOf(m', t)) == Some(s))
    requires Next(m'.heap.link, s) == Sentinel ==> CanaryIntact(c, m.heap, s)
    ensures SentinelsMatch(c, m', P[s := place])
  {
    var P' := P[s := place];
    forall r ensures Next(m'.heap.link, r) == Sentinel <==>
      PlaceOf(P', r) == Live || (PlaceOf(P', r).With? && Freeing(PCOf(m', PlaceOf(P', r).t)) == Some(r))
    {
      if r != s {
        assert PlaceOf(P', r) == PlaceOf(P, r);
        if PlaceOf(P, r).With? { assert PlaceOf(P, r).t != t; }
      }
    }
  }

  lemma MovedLocks(m: System, m1: System, t: Tid, p: PC)
    requires LocksMatch(m) && m1.lock == m.lock && m1.pc == m.pc && LockHeld(p) == LockHeld(PCOf(m, t))
    ensures LocksMatch(Goto(m1, t, p))
  {
    GotoPC(m1, t, p);
    assert forall u :: PCOf(m1, u) == PCOf(m, u);
  }

  /** One thread moves one slot to its next place; what remains to check is the queues. */
  lemma SlotMoveKeeps(c: Config, m: System, m1: System, t: Tid, p: PC,
                      q: map<Item, seq<Slot>>, q': map<Item, seq<Slot>>, P: map<Slot, Place>, s: Slot, place: Place)
    requires Inv(c, m, q, P)
    requires m1 == m.(heap := m.heap.(link := m1.heap.link, list := m1.heap.list), live := m1.live)
    requires m1.live == if place == Live then m.live + {s} else m.live - {s}
    requires Turn(PlaceOf(P, s), t) && Turn(place, t)
    requires Holding(PCOf(m, t)) == (if PlaceOf(P, s) == With(t) then Some(s) else None)
    requires Holding(p) == (if place == With(t) then Some(s) else None)
    requires LockHeld(p) == LockHeld(PCOf(m, t))
    requires forall r :: r != s ==> (Next(m1.heap.link, r) == Sentinel <==> Next(m.heap.link, r) == Sentinel)
    requires Next(m1.heap.link, s) == Sentinel <==> place == Live || Freeing(p) == Some(s)
    requires Next(m1.heap.link, s) == Sentinel ==> CanaryIntact(c, m.heap, s)
    requires PCValid(c, Goto(m1, t, p), t)
    requires QueuesSpelled(m1.heap, q', P[s := place])
    ensures Inv(c, Goto(m1, t, p), q', P[s := place])
  {
    var m' := Goto(m1, t, p);
    GotoPC(m1, t, p);
    assert forall u :: PCOf(m1, u) == PCOf(m, u);
    PlaceMoved(c, m, m', P, s, t, place);
    SentinelMoved(c, m, m', P, s, t, place);
    OthersValid(c, m, m', t);
    MovedLocks(m, m1, t, p);
  }

  /** Removing the head of a free list takes the oldest queued slot. */
  lemma TakeSpelled(h: Heap, it: Item, q: map<Item, seq<Slot>>, P: map<Slot, Place>, t: Tid)
    requires QueuesSpelled(h, q, P) && !IsDLLEmpty(ListOf(h, it))
    ensures ListOf(h, it).next.To? && QueueOf(q, it) != [] && TakeHead(h, it).1 == QueueOf(q, it)[0]
    ensures var (h', s) := TakeHead(h, it);
      && s.item == it && PlaceOf(P, s) == Queued
      && QueuesSpelled(h', q[it := QueueOf(q, it)[1..]], P[s := With(t)])
  {
    var xs := QueueOf(q, it);
    assert QueueSpelled(h, q, P, it);
    RemoveIsTail(h.link, ListOf(h, it), xs);
    ChainDistinct(h.link, ListOf(h, it).next, xs);
    var (h', s) := TakeHead(h, it);
    var q', P' := q[it := xs[1..]], P[s := With(t)];
    assert s in xs && s !in xs[1..];
    assert xs == [s] + xs[1..];
    forall jt ensures QueueSpelled(h', q', P', jt) {
      assert QueueSpelled(h, q, P, jt);
      if jt != it { assert s !in QueueOf(q, jt); }
    }
    forall r | PlaceOf(P', r) == Queued ensures r in QueueOf(q', r.item) {
      assert PlaceOf(P, r) == Queued && r in QueueOf(q, r.item);
    }
  }

  lemma TakeKeeps(c: Config, m: System, t: Tid, size: nat, it: Item, q: map<Item, seq<Slot>>, P: map<Slot, Place>)
      returns (q': map<Item, seq<Slot>>, P': map<Slot, Place>)
    requires Inv(c, m, q, P)
    requires PCOf(m, t) == Malloc(size, it, Locked(false)) && !IsDLLEmpty(ListOf(m.heap, it))
    ensures ListOf(m.heap, it).next.To?
    ensures var (h, s) := TakeHead(m.heap, it);
      Inv(c, Goto(m.(heap := h), t, Malloc(size, it, Taken(s))), q', P')
  {
    TakeSpelled(m.heap, it, q, P, t);
    var (h, s) := TakeHead(m.heap, it);
    q', P' := q[it := QueueOf(q, it)[1..]], P[s := With(t)];
    var p := Malloc(size, it, Taken(s));
    assert PCValid(c, Goto(m.(heap := h), t, p), t) by { assert PCValid(c, m, t); }
    SlotMoveKeeps(c, m, m.(heap := h), t, p, q, q', P, s, With(t));
  }

  lemma QueuedNotSentinel(h: Heap, q: map<Item, seq<Slot>>, P: map<Slot, Place>)
    requires QueuesSpelled(h, q, P)
    ensures forall r :: PlaceOf(P, r) == Queued ==> Next(h.link, r) != Sentinel
  {
    forall r | PlaceOf(P, r) == Queued ensures Next(h.link, r) != Sentinel {
      assert QueueSpelled(h, q, P, r.item) && r in QueueOf(q, r.item);
    }
  }

  /** Inserting a slot held by a thread appends it to the queue of its item, and clears its
      sentinel. */
  lemma PutSpelled(h: Heap, s: Slot, q: map<Item, seq<Slot>>, P: map<Slot, Place>)
    requires QueuesSpelled(h, q, P) && PlaceOf(P, s) != Queued
    ensures QueuesSpelled(PutTail(h, s), q[s.item := QueueOf(q, s.item) + [s]], P[s := Queued])
    ensures Next(PutTail(h, s).link, s) == Null
    ensures forall r :: r != s && PlaceOf(P, r) != Queued ==> Next(PutTail(h, s).link, r) == Next(h.link, r)
    ensures forall r :: PlaceOf(P, r) == Queued ==>
      Next(h.link, r) != Sentinel && Next(PutTail(h, s).link, r) != Sentinel
  {
    hide IsQueue;
    var xs := QueueOf(q, s.item);
    var h', q', P' := PutTail(h, s), q[s.item := xs + [s]], P[s := Queued];
    assert QueueSpelled(h, q, P, s.item) && s !in xs;
    InsertIsAppend(h.link, ListOf(h, s.item), s, xs);
    assert xs != [] ==> xs[|xs| - 1] in xs;
    forall jt ensures QueueSpelled(h', q', P', jt) {
      assert QueueSpelled(h, q, P, jt);
      if jt != s.item {
        assert forall r <- QueueOf(q, jt) :: r !in xs && r != s;
        QueueFrame(h.link, h'.link, ListOf(h, jt), QueueOf(q, jt));
      }
    }
    QueuedNotSentinel(h, q, P);
    QueuedNotSentinel(h', q', P');
  }

  lemma PutKeeps(c: Config, m: System, t: Tid, s: Slot, q: map<Item, seq<Slot>>, P: map<Slot, Place>)
      returns (q': map<Item, seq<Slot>>, P': map<Slot, Place>)
    requires Inv(c, m, q, P)
    requires PCOf(m, t) == Free(s, Inserting)
    ensures Inv(c, Goto(m.(heap := PutTail(m.heap, s)), t, Free(s, Inserted)), q', P')
  {
    assert Holding(PCOf(m, t)) == Some(s) && PlaceOf(P, s) == With(t);
    PutSpelled(m.heap, s, q, P);
    q', P' := q[s.item := QueueOf(q, s.item) + [s]], P[s := Queued];
    var m1, p := m.(heap := PutTail(m.heap, s)), Free(s, Inserted);
    assert PCValid(c, Goto(m1, t, p), t) by { assert PCValid(c, m, t); }
    assert s !in m.live;
    SlotMoveKeeps(c, m, m1, t, p, q, q', P, s, Queued);
  }

  /** Writing the sentinel of a slot in hand leaves every queue alone. */
  lemma MarkSpelled(h: Heap, s: Slot, link: Link<Slot>, q: map<Item, seq<Slot>>, P: map<Slot, Place>, place: Place)
    requires QueuesSpelled(h, q, P) && PlaceOf(P, s) != Queued && place != Queued
    ensures QueuesSpelled(h.(link := h.link[s := link]), q, P[s := place])
  {
    var h', P' := h.(link := h.link[s := link]), P[s := place];
    forall jt ensures QueueSpelled(h', q, P', jt) {
      assert QueueSpelled(h, q, P, jt) && s !in QueueOf(q, jt);
      QueueFrame(h.link, h'.link, ListOf(h, jt), QueueOf(q, jt));
    }
  }

  /** The hand-over to the client: the slot was in no client's hands before. */
  lemma MarkKeeps(c: Config, m: System, t: Tid, size: nat, it: Item, s: Slot,
                  q: map<Item, seq<Slot>>, P: map<Slot, Place>)
      returns (P': map<Slot, Place>)
    requires Inv(c, m, q, P)
    requires PCOf(m, t) == Malloc(size, it, Sealed(s))
    ensures Inv(c, Goto(m.(heap := MarkAllocated(m.heap, s), live := m.live + {s}), t, Idle), q, P')
  {
    assert PCValid(c, m, t) && Holding(PCOf(m, t)) == Some(s) && PlaceOf(P, s) == With(t);
    P' := P[s := Live];
    MarkSpelled(m.heap, s, Sentinel, q, P, Live);
    var m1 := m.(heap := MarkAllocated(m.heap, s), live := m.live + {s});
    assert PCValid(c, Goto(m1, t, Idle), t);
    SlotMoveKeeps(c, m, m1, t, Idle, q, q, P, s, Live);
  }

  lemma AcceptFreeKeeps(c: Config, m: System, t: Tid, s: Slot, q: map<Item, seq<Slot>>, P: map<Slot, Place>)
      returns (P': map<Slot, Place>)
    requires Inv(c, m, q, P)
    requires Enabled(c, m, CallFree(t, s)) && s in m.live
    ensures Inv(c, Goto(m.(live := m.live - {s}), t, Free(s, Probe(s, Neighbours(s)))), q, P')
  {
    assert PlaceOf(P, s) == Live && Next(m.heap.link, s) == Sentinel;
    P' := P[s := With(t)];
    var m1, p := m.(live := m.live - {s}), Free(s, Probe(s, Neighbours(s)));
    MarkSpelled(m.heap, s, Sentinel, q, P, With(t));
    assert m.heap.link[s := Sentinel] == m.heap.link;
    assert PCValid(c, Goto(m1, t, p), t);
    SlotMoveKeeps(c, m, m1, t, p, q, q, P, s, With(t));
  }

  /** Free accepts a slot exactly when a client holds it. */
  lemma FreeAcceptsExactlyLive(c: Config, m: System, t: Tid, s: Slot)
    requires Good(c, m) && Enabled(c, m, CallFree(t, s))
    ensures !ObjectFree(m.heap, s) <==> s in m.live
  {
    var q, P :| Inv(c, m, q, P);
    if PlaceOf(P, s).With? {
      assert Freeing(PCOf(m, PlaceOf(P, s).t)) != Some(s);
    }
  }

  // ------------------------------------------------------------ the bump pointer step

  lemma RangeMember(it: Item, lo: nat, hi: nat)
    ensures forall s :: s in Range(it, lo, hi) <==> s.item == it && lo <= s.k < hi
  {
    forall s: Slot | s.item == it && lo <= s.k < hi ensures s in Range(it, lo, hi) {
      assert s == Slot(it, s.k);
    }
  }

  /** The places after thread `t` read slot `k` and the pointer moved on to `hi`. */
  function Bumped(P: map<Slot, Place>, t: Tid, it: Item, k: nat, hi: nat): map<Slot, Place> {
    var skipped := Range(it, k + 1, hi);
    P[Slot(it, k) := With(t)] + (map s | s in skipped :: Guarded)
  }

  function BumpedPlace(P: map<Slot, Place>, t: Tid, it: Item, k: nat, hi: nat, r: Slot): Place {
    if r.item != it || r.k < k || r.k >= hi then PlaceOf(P, r)
    else if r.k == k then With(t) else Guarded
  }

  lemma BumpedPlaces(P: map<Slot, Place>, t: Tid, it: Item, k: nat, hi: nat)
    requires k < hi
    ensures forall r {:trigger PlaceOf(Bumped(P, t, it, k, hi), r)} ::
      PlaceOf(Bumped(P, t, it, k, hi), r) == BumpedPlace(P, t, it, k, hi, r)
  {
    RangeMember(it, k + 1, hi);
  }

  lemma AdvanceShape(c: Config, h: Heap, it: Item, guard: bool) returns (hi: nat)
    ensures hi > Pos(h, it)
    ensures var h' := Advance(c, h, it, guard);
      && h'.list == h.list && h'.link == h.link && h'.mem == h.mem
      && (forall jt :: Pos(h', jt) == if jt == it then hi else Pos(h, jt))
      && (forall s :: s in h'.skipped <==> s in h.skipped || (s.item == it && Pos(h, it) < s.k < hi))
  {
    hi := Pos(Advance(c, h, it, guard), it);
    RangeMember(it, Pos(h, it) + 1, hi);
  }

  lemma BumpPlaces(c: Config, m: System, m': System, t: Tid, it: Item, k: nat, hi: nat, P: map<Slot, Place>)
    requires PlacesMatch(c, m, P) && ValidItem(c, it)
    requires k == Pos(m.heap, it) < hi
    requires forall u :: u != t ==> PCOf(m', u) == PCOf(m, u)
    requires Holding(PCOf(m, t)) == None && Holding(PCOf(m', t)) == Some(Slot(it, k))
    requires m'.live == m.live
    requires forall jt :: Pos(m'.heap, jt) == if jt == it then hi else Pos(m.heap, jt)
    requires forall s :: s in m'.heap.skipped <==> s in m.heap.skipped || (s.item == it && k < s.k < hi)
    ensures PlacesMatch(c, m', Bumped(P, t, it, k, hi))
  {
    var P' := Bumped(P, t, it, k, hi);
    BumpedPlaces(P, t, it, k, hi);
    assert forall s: Slot :: s.item == it && s.k >= k ==> PlaceOf(P, s) == Nowhere;
  }

  lemma BumpSentinels(c: Config, m: System, m': System, t: Tid, it: Item, k: nat, hi: nat, P: map<Slot, Place>)
    requires PlacesMatch(c, m, P) && SentinelsMatch(c, m, P)
    requires k == Pos(m.heap, it) < hi
    requires forall u :: u != t ==> PCOf(m', u) == PCOf(m, u)
    requires Holding(PCOf(m, t)) == None && Freeing(PCOf(m', t)) == None
    requires m'.heap.link == m.heap.link && m'.heap.mem == m.heap.mem
    ensures SentinelsMatch(c, m', Bumped(P, t, it, k, hi))
  {
    var P' := Bumped(P, t, it, k, hi);
    BumpedPlaces(P, t, it, k, hi);
    assert forall s: Slot :: s.item == it && s.k >= k ==> PlaceOf(P, s) == Nowhere;
    forall s ensures Next(m'.heap.link, s) == Sentinel <==>
      PlaceOf(P', s) == Live || (PlaceOf(P', s).With? && Freeing(PCOf(m', PlaceOf(P', s).t)) == Some(s))
    {
      if PlaceOf(P, s).With? { assert PlaceOf(P, s).t != t; }
    }
  }

  lemma BumpQueues(h: Heap, h': Heap, t: Tid, it: Item, k: nat, hi: nat, q: map<Item, seq<Slot>>, P: map<Slot, Place>)
    requires QueuesSpelled(h, q, P) && h'.list == h.list && h'.link == h.link && k < hi
    requires forall s: Slot :: s.item == it && s.k >= k ==> PlaceOf(P, s) == Nowhere
    ensures QueuesSpelled(h', q, Bumped(P, t, it, k, hi))
  {
    BumpedPlaces(P, t, it, k, hi);
    forall jt ensures QueueSpelled(h', q, Bumped(P, t, it, k, hi), jt) {
      assert QueueSpelled(h, q, P, jt);
    }
  }

  lemma BumpOthers(c: Config, m: System, m': System, t: Tid, it: Item)
    requires (forall u :: PCValid(c, m, u)) && Injective(m.threads.running)
    requires t in m.threads.running && m.threads.running[t] == it.thread
    requires m'.threads == m.threads && m'.heap.mem == m.heap.mem
    requires forall u :: u != t ==> PCOf(m', u) == PCOf(m, u)
    requires forall jt :: jt != it ==> Pos(m'.heap, jt) == Pos(m.heap, jt)
    requires forall s :: WasAllocated(m.heap, s) ==> WasAllocated(m'.heap, s)
    requires PCValid(c, m', t)
    ensures forall u :: PCValid(c, m', u)
  {
    forall u ensures PCValid(c, m', u) {
      if u != t { assert PCValid(c, m, u); }
    }
  }

  /** Reading and advancing the bump pointer is safe without the lock because no other
      running thread has the index that owns it. */
  lemma BumpKeeps(c: Config, m: System, t: Tid, size: nat, it: Item, k: nat, guard: bool,
                  q: map<Item, seq<Slot>>, P: map<Slot, Place>)
      returns (P': map<Slot, Place>)
    requires Inv(c, m, q, P)
    requires PCOf(m, t) == Malloc(size, it, Read(k))
    ensures k == Pos(m.heap, it)
    ensures Inv(c, Goto(m.(heap := Advance(c, m.heap, it, guard)), t, Malloc(size, it, Got(Slot(it, k)))), q, P')
  {
    assert PCValid(c, m, t);
    var hi := AdvanceShape(c, m.heap, it, guard);
    var m1, p := m.(heap := Advance(c, m.heap, it, guard)), Malloc(size, it, Got(Slot(it, k)));
    var m' := Goto(m1, t, p);
    P' := Bumped(P, t, it, k, hi);
    GotoPC(m1, t, p);
    assert forall u :: PCOf(m1, u) == PCOf(m, u);
    BumpPlaces(c, m, m', t, it, k, hi, P);
    BumpSentinels(c, m, m', t, it, k, hi, P);
    BumpQueues(m.heap, m1.heap, t, it, k, hi, q, P);
    MovedLocks(m, m1, t, p);
    BumpOthers(c, m, m', t, it);
  }

  // ------------------------------------------------------------ steps that write memory

  lemma MemKeeps(c: Config, m: System, mem': map<nat, int>, q: map<Item, seq<Slot>>, P: map<Slot, Place>)
    requires Inv(c, m, q, P)
    requires forall s :: CanaryIntact(c, m.heap, s) ==> CanaryIntact(c, m.heap.(mem := mem'), s)
    ensures Inv(c, m.(heap := m.heap.(mem := mem')), q, P)
  {
    var m' := m.(heap := m.heap.(mem := mem'));
    assert forall u :: PCOf(m', u) == PCOf(m, u);
    assert forall it :: Pos(m'.heap, it) == Pos(m.heap, it);
    forall u ensures PCValid(c, m', u) { assert PCValid(c, m, u); }
    forall jt ensures QueueSpelled(m'.heap, q, P, jt) { assert QueueSpelled(m.heap, q, P, jt); }
    assert PlacesMatch(c, m', P);
  }

  /** A write inside the usable part of an object changes no canary. */
  lemma ClientWriteSparesCanaries(c: Config, s: Slot, offset: nat, r: Slot)
    requires ValidItem(c, s.item) && ValidItem(c, r.item) && offset + 1 < ClassSize(s.item.bag)
    ensures UserAddr(c, s) + offset != CanaryAddr(c, r)
  {
    if s != r { SlotsDisjoint(c, s, r); }
  }

  lemma ClientWriteKeeps(c: Config, m: System, s: Slot, offset: nat, value: int,
                         q: map<Item, seq<Slot>>, P: map<Slot, Place>)
    requires Inv(c, m, q, P) && s in m.live && offset + 1 < ClassSize(s.item.bag)
    ensures Inv(c, m.(heap := m.heap.(mem := m.heap.mem[UserAddr(c, s) + offset := value])), q, P)
  {
    assert ValidItem(c, s.item) by { assert PlaceOf(P, s) == Live; }
    var mem' := m.heap.mem[UserAddr(c, s) + offset := value];
    forall r | CanaryIntact(c, m.heap, r) ensures CanaryIntact(c, m.heap.(mem := mem'), r) {
      ClientWriteSparesCanaries(c, s, offset, r);
    }
    MemKeeps(c, m, mem', q, P);
  }

  lemma CanaryKeeps(c: Config, m: System, t: Tid, size: nat, it: Item, s: Slot,
                    q: map<Item, seq<Slot>>, P: map<Slot, Place>)
    requires Inv(c, m, q, P)
    requires PCOf(m, t) == Malloc(size, it, Got(s))
    ensures Inv(c, Goto(m.(heap := WriteCanary(c, m.heap, s)), t, Malloc(size, it, Sealed(s))), q, P)
  {
    assert PCValid(c, m, t);
    var m1 := m.(heap := WriteCanary(c, m.heap, s));
    MemKeeps(c, m, m1.heap.mem, q, P);
    var p := Malloc(size, it, Sealed(s));
    assert PCOf(m1, t) == PCOf(m, t);
    SameLockKeeps(m1, t, p);
    MoveKeeps(c, m1, m1, t, p, q, P);
  }

  // ------------------------------------------------------------ every step, every run

  lemma CallMallocKeeps(c: Config, m: System, t: Tid, size: nat, random: nat,
                        q: map<Item, seq<Slot>>, P: map<Slot, Place>)
    requires Inv(c, m, q, P) && Enabled(c, m, CallMalloc(t, size, random))
    ensures Inv(c, Perform(c, m, CallMalloc(t, size, random)), q, P)
  {
    BagForFits(c, size);
    var it := Item(m.threads.running[t], BagFor(size), random % SET_SIZE);
    var p := Malloc(size, it, Called(random % RANDOMIZER == 0));
    SameLockKeeps(m, t, p);
    MoveKeeps(c, m, m, t, p, q, P);
  }

  /** A thread inside the heap keeps running under its index. */
  lemma StillRunning(m: System, e: Event, u: Tid)
    requires m.threads.Shape() && Legal(m.threads, e) && (e.End? ==> PCOf(m, e.tid).Idle?)
    ensures var r, r' := m.threads.running, Threads.Apply(m.threads, e).running;
      u in r && !PCOf(m, u).Idle? ==> u in r' && r'[u] == r[u]
  {
    hide Table.Shape, PickIndex;
  }

  lemma ThreadEventKeeps(c: Config, m: System, e: Event, q: map<Item, seq<Slot>>, P: map<Slot, Place>)
    requires Inv(c, m, q, P) && Enabled(c, m, ThreadEvent(e))
    ensures Inv(c, Perform(c, m, ThreadEvent(e)), q, P)
  {
    var m' := Perform(c, m, ThreadEvent(e));
    EventKeepsExactly(m.threads, e);
    assert forall u :: PCOf(m', u) == PCOf(m, u);
    forall u ensures PCValid(c, m', u) {
      assert PCValid(c, m, u);
      StillRunning(m, e, u);
    }
    SameHoldings(c, m, m', P);
  }

  /** The stages of an allocation that only move locks. */
  lemma MallocLockKeeps(c: Config, m: System, t: Tid, guard: bool, q: map<Item, seq<Slot>>, P: map<Slot, Place>)
    requires Inv(c, m, q, P) && PCOf(m, t).Malloc? && Enabled(c, m, Continue(t, guard))
    requires var stage := PCOf(m, t).stage; stage.Called? || stage.Taken? || stage.Leaving? || stage.Bumping?
    ensures Inv(c, Perform(c, m, Continue(t, guard)), q, P)
  {
    var Malloc(size, it, stage) := PCOf(m, t);
    assert PCValid(c, m, t);
    match stage {
      case Called(useBump) =>
        var p := Malloc(size, it, Locked(useBump));
        AcquireKeeps(m, t, it, p);
        MoveKeeps(c, m, m.(lock := m.lock[it := t]), t, p, q, P);
      case Taken(s) =>
        ReleaseKeeps(m, t, it, Malloc(size, it, Got(s)));
        MoveKeeps(c, m, m.(lock := m.lock - {it}), t, Malloc(size, it, Got(s)), q, P);
      case Leaving =>
        ReleaseKeeps(m, t, it, Malloc(size, it, Bumping));
        MoveKeeps(c, m, m.(lock := m.lock - {it}), t, Malloc(size, it, Bumping), q, P);
      case Bumping =>
        SameLockKeeps(m, t, Malloc(size, it, Read(Pos(m.heap, it))));
        MoveKeeps(c, m, m, t, Malloc(size, it, Read(Pos(m.heap, it))), q, P);
    }
  }

  lemma MallocKeeps(c: Config, m: System, t: Tid, guard: bool, q: map<Item, seq<Slot>>, P: map<Slot, Place>)
    requires Inv(c, m, q, P) && PCOf(m, t).Malloc? && Enabled(c, m, Continue(t, guard))
    ensures Good(c, Perform(c, m, Continue(t, guard)))
  {
    hide QueuesSpelled, PlacesMatch, SentinelsMatch, LocksMatch;
    var Malloc(size, it, stage) := PCOf(m, t);
    match stage {
      case Locked(useBump) =>
        if !IsDLLEmpty(ListOf(m.heap, it)) && !useBump {
          var q', P' := TakeKeeps(c, m, t, size, it, q, P);
        } else {
          assert PCValid(c, m, t);
          SameLockKeeps(m, t, Malloc(size, it, Leaving));
          MoveKeeps(c, m, m, t, Malloc(size, it, Leaving), q, P);
        }
      case Read(k) =>
        var P' := BumpKeeps(c, m, t, size, it, k, guard, q, P);
      case Got(s) =>
        CanaryKeeps(c, m, t, size, it, s, q, P);
      case Sealed(s) =>
        var P' := MarkKeeps(c, m, t, size, it, s, q, P);
      case _ =>
        MallocLockKeeps(c, m, t, guard, q, P);
    }
  }

  /** A slot whose sentinel a racing reader saw has been allocated and stays sealed. */
  lemma SeenSentinel(c: Config, m: System, s: Slot, q: map<Item, seq<Slot>>, P: map<Slot, Place>)
    requires Inv(c, m, q, P) && !ObjectFree(m.heap, s)
    ensures CanaryIntact(c, m.heap, s) && WasAllocated(m.heap, s)
  {
    assert PlaceOf(P, s) != Nowhere && PlaceOf(P, s) != Guarded;
  }

  lemma FreeKeeps(c: Config, m: System, t: Tid, guard: bool, q: map<Item, seq<Slot>>, P: map<Slot, Place>)
    requires Inv(c, m, q, P) && PCOf(m, t).Free? && Enabled(c, m, Continue(t, guard))
    ensures Good(c, Perform(c, m, Continue(t, guard)))
  {
    hide QueuesSpelled, PlacesMatch, SentinelsMatch, WasAllocated, PutTail;
    var Free(s, stage) := PCOf(m, t);
    assert PCValid(c, m, t);
    match stage {
      case Probe(n, todo) =>
        SameLockKeeps(m, t, Free(s, Walk(todo)));
        MoveKeeps(c, m, m, t, Free(s, Walk(todo)), q, P);
      case Walk(todo) =>
        if todo == [] {
          AcquireKeeps(m, t, s.item, Free(s, Inserting));
          MoveKeeps(c, m, m.(lock := m.lock[s.item := t]), t, Free(s, Inserting), q, P);
        } else {
          var p := Free(s, if ObjectFree(m.heap, todo[0]) then Walk(todo[1..]) else Probe(todo[0], todo[1..]));
          if !ObjectFree(m.heap, todo[0]) { SeenSentinel(c, m, todo[0], q, P); }
          assert todo[0] in todo && forall r <- todo[1..] :: r in todo;
          SameLockKeeps(m, t, p);
          MoveKeeps(c, m, m, t, p, q, P);
        }
      case Inserting =>
        var q', P' := PutKeeps(c, m, t, s, q, P);
      case Inserted =>
        ReleaseKeeps(m, t, s.item, Idle);
        MoveKeeps(c, m, m.(lock := m.lock - {s.item}), t, Idle, q, P);
    }
  }

  lemma CallFreeKeeps(c: Config, m: System, t: Tid, s: Slot, q: map<Item, seq<Slot>>, P: map<Slot, Place>)
    requires Inv(c, m, q, P) && Enabled(c, m, CallFree(t, s))
    ensures Good(c, Perform(c, m, CallFree(t, s)))
  {
    FreeAcceptsExactlyLive(c, m, t, s);
    if s in m.live {
      var P' := AcceptFreeKeeps(c, m, t, s, q, P);
    } else {
      SameLockKeeps(m, t, Rejected(s));
      MoveKeeps(c, m, m, t, Rejected(s), q, P);
    }
  }

  /** Every step of every thread keeps the heap good. */
  lemma StepKeeps(c: Config, m: System, a: Action)
    requires Good(c, m) && Enabled(c, m, a)
    ensures Good(c, Perform(c, m, a))
  {
    var q, P :| Inv(c, m, q, P);
    match a {
      case CallMalloc(t, size, random) => CallMallocKeeps(c, m, t, size, random, q, P);
      case CallFree(t, slot) => CallFreeKeeps(c, m, t, slot, q, P);
      case Continue(t, guard) =>
        if PCOf(m, t).Malloc? { MallocKeeps(c, m, t, guard, q, P); } else { FreeKeeps(c, m, t, guard, q, P); }
      case ClientWrite(slot, offset, value) => ClientWriteKeeps(c, m, slot, offset, value, q, P);
      case ThreadEvent(e) => ThreadEventKeeps(c, m, e, q, P);
    }
  }

  /** No two threads are freeing one slot. */
  lemma OneFreesEach(c: Config, m: System, t: Tid, u: Tid)
    requires Good(c, m) && Freeing(PCOf(m, t)).Some? && Freeing(PCOf(m, t)) == Freeing(PCOf(m, u))
    ensures t == u
  {
    var q, P :| Inv(c, m, q, P);
    var s := Freeing(PCOf(m, t)).value;
    assert Holding(PCOf(m, t)) == Some(s) && Holding(PCOf(m, u)) == Some(s);
  }

  /** A slot that is being freed still carries the sentinel. */
  lemma FreedStillMarked(c: Config, m: System, u: Tid)
    requires Good(c, m) && Freeing(PCOf(m, u)).Some?
    ensures !ObjectFree(m.heap, Freeing(PCOf(m, u)).value)
  {
    var q, P :| Inv(c, m, q, P);
    var s := Freeing(PCOf(m, u)).value;
    assert Holding(PCOf(m, u)) == Some(s) && PlaceOf(P, s) == With(u);
  }

  lemma GoodThreads(c: Config, m: System)
    requires Good(c, m)
    ensures Consistent(m.threads)
  {
    var q, P :| Inv(c, m, q, P);
  }

  /** The promises about frees and joins are no stronger than needed: a second free of an
      object in the middle of being freed, or a join of a thread `_xmap` does not know by its
      index, leaves a heap that is not good. */
  lemma StepKeepsExactly(c: Config, m: System, a: Action)
    requires Good(c, m) && CanHappen(c, m, a) && !a.ClientWrite?
    ensures Good(c, Perform(c, m, a)) <==> Promised(m, a)
  {
    hide Good;
    var m' := Perform(c, m, a);
    if Promised(m, a) {
      StepKeeps(c, m, a);
    } else if a.ThreadEvent? {
      GoodThreads(c, m);
      EventKeepsExactly(m.threads, a.e);
      if Good(c, m') { GoodThreads(c, m'); }
    } else {
      var CallFree(t, s) := a;
      var u :| u in m.pc && Freeing(m.pc[u]) == Some(s);
      FreedStillMarked(c, m, u);
      assert Freeing(PCOf(m', t)) == Freeing(PCOf(m', u)) == Some(s);
      if Good(c, m') { OneFreesEach(c, m', t, u); }
    }
  }

  /** A run: every action enabled where it happens. */
  ghost predicate Possible(c: Config, m: System, run: seq<Action>)
    decreases |run|
  {
    run == [] || (Enabled(c, m, run[0]) && Possible(c, Perform(c, m, run[0]), run[1..]))
  }

  ghost function After(c: Config, m: System, run: seq<Action>): System
    requires Possible(c, m, run)
    decreases |run|
  {
    if run == [] then m else After(c, Perform(c, m, run[0]), run[1..])
  }

  ghost const BOOT: System := System(EMPTY_HEAP, {}, map[], map[], INITIAL)

  lemma BootGood(c: Config)
    requires c.Valid()
    ensures Good(c, BOOT)
  {
    StartsConsistent();
    assert Inv(c, BOOT, map[], map[]);
  }

  lemma {:induction false} EveryRunGood(c: Config, m: System, run: seq<Action>)
    requires Good(c, m) && Possible(c, m, run)
    ensures Good(c, After(c, m, run))
    decreases |run|
  {
    if run != [] {
      StepKeeps(c, m, run[0]);
      EveryRunGood(c, Perform(c, m, run[0]), run[1..]);
    }
  }

  // ------------------------------------------------------------ what a good heap promises

  /** The five places, read off the machine itself. */
  ghost predicate IsIn(m: System, q: map<Item, seq<Slot>>, s: Slot, place: Place) {
    match place
    case Nowhere => s.k >= Pos(m.heap, s.item)
    case Live => s in m.live
    case Guarded => s in m.heap.skipped
    case Queued => exists it :: s in QueueOf(q, it)
    case With(t) => Holding(PCOf(m, t)) == Some(s)
  }

  ghost predicate HasPlace(m: System, q: map<Item, seq<Slot>>, s: Slot) {
    exists place :: IsIn(m, q, s, place)
  }

  /** The places of a good machine, and that they exclude each other. */
  lemma PlacesApart(c: Config, m: System) returns (q: map<Item, seq<Slot>>)
    requires Good(c, m)
    ensures forall it :: IsQueue(m.heap.link, ListOf(m.heap, it), QueueOf(q, it)) && Distinct(QueueOf(q, it))
    ensures forall it, s :: s in QueueOf(q, it) ==> s.item == it
    ensures forall s :: HasPlace(m, q, s)
    ensures forall s, p1, p2 :: IsIn(m, q, s, p1) && IsIn(m, q, s, p2) ==> p1 == p2
  {
    hide PCValid, LocksMatch, SentinelsMatch, IsChain;
    var P;
    q, P :| Inv(c, m, q, P);
    forall it ensures IsQueue(m.heap.link, ListOf(m.heap, it), QueueOf(q, it)) && Distinct(QueueOf(q, it)) {
      assert QueueSpelled(m.heap, q, P, it);
      ChainDistinct(m.heap.link, ListOf(m.heap, it).next, QueueOf(q, it));
    }
    forall it, s | s in QueueOf(q, it) ensures s.item == it && PlaceOf(P, s) == Queued {
      assert QueueSpelled(m.heap, q, P, it);
    }
    forall s ensures HasPlace(m, q, s) { assert IsIn(m, q, s, PlaceOf(P, s)); }
    forall s, p | IsIn(m, q, s, p) ensures p == PlaceOf(P, s) {}
  }

  /** In every run every slot is in exactly one place, where the queues are those that the
      free-list headers and the shadow links spell, and hold each slot at most once. */
  lemma ExactlyOnePlace(c: Config, run: seq<Action>) returns (q: map<Item, seq<Slot>>)
    requires c.Valid() && Possible(c, BOOT, run)
    ensures var m := After(c, BOOT, run);
      && (forall it :: IsQueue(m.heap.link, ListOf(m.heap, it), QueueOf(q, it)) && Distinct(QueueOf(q, it)))
      && (forall it, s :: s in QueueOf(q, it) ==> s.item == it)
      && (forall s :: HasPlace(m, q, s))
      && (forall s, p1, p2 :: IsIn(m, q, s, p1) && IsIn(m, q, s, p2) ==> p1 == p2)
  {
    hide Good, Enabled, Perform, IsQueue, IsIn, HasPlace;
    BootGood(c);
    EveryRunGood(c, BOOT, run);
    q := PlacesApart(c, After(c, BOOT, run));
  }

  /** Lock holders never wait, so some thread inside the heap can always go on. */
  lemma NoDeadlock(c: Config, m: System, t: Tid) returns (u: Tid)
    requires Good(c, m) && (PCOf(m, t).Malloc? || PCOf(m, t).Free?)
    ensures Enabled(c, m, Continue(u, false))
  {
    var q, P :| Inv(c, m, q, P);
    u := t;
    if !Enabled(c, m, Continue(t, false)) {
      u := m.lock[if PCOf(m, t).Malloc? then PCOf(m, t).it else PCOf(m, t).slot.item];
    }
  }

  /** No canary check, of an object or of its neighbours, ever reports damage, and each
      reads an object that was handed out at some time. */
  lemma CanariesNeverDamaged(c: Config, m: System, t: Tid)
    requires Good(c, m)
    ensures !PCOf(m, t).Damaged?
    ensures PCOf(m, t).Free? && PCOf(m, t).fstage.Probe? ==>
      CanaryIntact(c, m.heap, PCOf(m, t).fstage.n) && WasAllocated(m.heap, PCOf(m, t).fstage.n)
  {
    var q, P :| Inv(c, m, q, P);
    assert PCValid(c, m, t);
  }

  /** What the client gets when thread `t` finishes an allocation of `size` bytes. */
  ghost predicate GoodObject(c: Config, m: System, t: Tid, size: nat, s: Slot) {
    && ValidItem(c, s.item) && t in m.threads.running
    // in the thread's own bag of the right class, within that bag in some heap
    && s.item.thread == m.threads.running[t] && s.item.bag == BagFor(size)
    && BagStart(c, LocOf(c, s).heap, s.item.thread, s.item.bag) <= SlotAddr(c, s)
    && SlotAddr(c, s) + ClassSize(s.item.bag) <= TrailingGuardStart(c, LocOf(c, s))
    // large enough, canary included
    && (size + 1 < SIZE_LIMIT ==> size + 1 <= ClassSize(s.item.bag))
    && CanaryIntact(c, m.heap, s)
    // held by nobody, and apart from every live object and every guarded range
    && s !in m.live && s !in m.heap.skipped
    && (forall r :: (r in m.live || r in m.heap.skipped) ==>
         ValidItem(c, r.item) && Disjoint(SlotAddr(c, s), ClassSize(s.item.bag), SlotAddr(c, r), ClassSize(r.item.bag)))
    && (forall l :: ValidLoc(c, l) ==>
         Disjoint(SlotAddr(c, s), ClassSize(s.item.bag), TrailingGuardStart(c, l), GuardSize(c, l.bag)))
  }

  lemma PlacesOf(c: Config, m: System) returns (P: map<Slot, Place>)
    requires Good(c, m)
    ensures PlacesMatch(c, m, P) && forall t :: PCValid(c, m, t)
  {
    var q;
    q, P :| Inv(c, m, q, P);
  }

  lemma HandedOutSafely(c: Config, m: System, t: Tid)
    requires Good(c, m)
    requires PCOf(m, t).Malloc? && PCOf(m, t).stage.Sealed?
    ensures GoodObject(c, m, t, PCOf(m, t).size, PCOf(m, t).stage.got)
  {
    var P := PlacesOf(c, m);
    var Malloc(size, it, Sealed(s)) := PCOf(m, t);
    assert PCValid(c, m, t);
    assert Holding(PCOf(m, t)) == Some(s) && PlaceOf(P, s) == With(t);
    BagForFits(c, size);
    ObjectInBag(c, LocOf(c, s));
    forall r | r in m.live || r in m.heap.skipped
      ensures ValidItem(c, r.item)
      ensures Disjoint(SlotAddr(c, s), ClassSize(s.item.bag), SlotAddr(c, r), ClassSize(r.item.bag))
    {
      assert PlaceOf(P, r) == Live || PlaceOf(P, r) == Guarded;
      SlotsDisjoint(c, s, r);
    }
    forall l | ValidLoc(c, l)
      ensures Disjoint(SlotAddr(c, s), ClassSize(s.item.bag), TrailingGuardStart(c, l), GuardSize(c, l.bag))
    {
      TrailingGuardDisjoint(c, LocOf(c, s), l);
    }
  }

  function HandedOut(p: PC): set<Slot> {
    if p.Malloc? && p.stage.Sealed? then {p.stage.got} else {}
  }

  lemma ContinueLive(c: Config, m: System, t: Tid, guard: bool)
    requires Enabled(c, m, Continue(t, guard))
    ensures Perform(c, m, Continue(t, guard)).live == m.live + HandedOut(PCOf(m, t))
    ensures m.heap.skipped <= Perform(c, m, Continue(t, guard)).heap.skipped
  {
  }

  lemma MemoryStays(c: Config, m: System, a: Action)
    requires CanHappen(c, m, a) && !a.ClientWrite?
    requires a.Continue? && PCOf(m, a.t).Malloc? ==> !PCOf(m, a.t).stage.Got?
    ensures Perform(c, m, a).heap.mem == m.heap.mem
  {
  }

  /** The allocator never writes to a live object, not even to its canary. */
  lemma LiveBytesUntouched(c: Config, m: System, a: Action, s: Slot, offset: nat)
    requires Good(c, m) && Enabled(c, m, a) && !a.ClientWrite?
    requires s in m.live && offset < ClassSize(s.item.bag)
    ensures Byte(Perform(c, m, a).heap.mem, UserAddr(c, s) + offset) == Byte(m.heap.mem, UserAddr(c, s) + offset)
  {
    hide QueuesSpelled, LocksMatch, SentinelsMatch, Advance;
    if a.Continue? && PCOf(m, a.t).Malloc? && PCOf(m, a.t).stage.Got? {
      var P := PlacesOf(c, m);
      var r := PCOf(m, a.t).stage.got;
      assert PCValid(c, m, a.t);
      assert Holding(PCOf(m, a.t)) == Some(r) && PlaceOf(P, r) == With(a.t) && PlaceOf(P, s) == Live;
      SlotsDisjoint(c, s, r);
    } else {
      MemoryStays(c, m, a);
    }
  }

  lemma GuardedNotLive(c: Config, m: System, s: Slot)
    requires Good(c, m) && s in m.heap.skipped
    ensures s !in m.live
  {
    var P := PlacesOf(c, m);
    assert PlaceOf(P, s) == Guarded;
  }

  /** A guarded slot stays guarded, and stays out of reach. */
  lemma GuardsAreForEver(c: Config, m: System, a: Action, s: Slot)
    requires Good(c, m) && Enabled(c, m, a) && s in m.heap.skipped
    ensures s in Perform(c, m, a).heap.skipped && s !in Perform(c, m, a).live
  {
    if a.Continue? { ContinueLive(c, m, a.t, a.guard); }
    StepKeeps(c, m, a);
    GuardedNotLive(c, Perform(c, m, a), s);
  }
}
