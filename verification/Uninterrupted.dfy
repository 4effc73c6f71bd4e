/** A whole allocation or a whole free by one thread while no other thread moves. */
module Uninterrupted {
  import opened Layout
  import opened Slots
  import opened Options
  import opened Threads
  import opened Machine

  /** The slot an allocation returns. */
  function MallocSlot(h: Heap, it: Item, useBump: bool): Slot {
    if ListOf(h, it).next.To? && !useBump then ListOf(h, it).next.node else Slot(it, Pos(h, it))
  }

  /** The heap when the slot is taken. */
  ghost function TakenHeap(c: Config, h: Heap, it: Item, useBump: bool, guard: bool): Heap {
    if ListOf(h, it).next.To? && !useBump then TakeHead(h, it).0 else Advance(c, h, it, guard)
  }

  /** The heap an allocation leaves behind. */
  ghost function MallocHeap(c: Config, h: Heap, it: Item, useBump: bool, guard: bool): Heap {
    var s := MallocSlot(h, it, useBump);
    MarkAllocated(WriteCanary(c, TakenHeap(c, h, it, useBump, guard), s), s)
  }

  /** A run extended by one more action. */
  lemma {:induction false} OneMore(c: Config, m: System, run: seq<Action>, a: Action)
    requires Possible(c, m, run) && Enabled(c, After(c, m, run), a)
    ensures Possible(c, m, run + [a]) && After(c, m, run + [a]) == Perform(c, After(c, m, run), a)
    decreases |run|
  {
    if run == [] {
      assert run + [a] == [a];
      assert [a][1..] == [];
    } else {
      OneMore(c, Perform(c, m, run[0]), run[1..], a);
      assert (run + [a])[1..] == run[1..] + [a];
    }
  }

  predicate OnlyContinues(run: seq<Action>) { forall a <- run :: a.Continue? }

  /** The machine `m` with thread `t` at `p` and other locks, heap and live set. */
  ghost function At(m: System, t: Tid, p: PC, lock: map<Item, Tid>, heap: Heap, live: set<Slot>): System {
    Goto(m.(lock := lock, heap := heap, live := live), t, p)
  }

  /** A step of `t` from one such state to the next. */
  lemma Onward(c: Config, m: System, run: seq<Action>, t: Tid, guard: bool,
               p: PC, lock: map<Item, Tid>, heap: Heap, live: set<Slot>,
               p': PC, lock': map<Item, Tid>, heap': Heap, live': set<Slot>) returns (run': seq<Action>)
    requires Possible(c, m, run) && After(c, m, run) == At(m, t, p, lock, heap, live)
    requires var n := At(m, t, p, lock, heap, live);
      && Enabled(c, n, Continue(t, guard))
      && Perform(c, n, Continue(t, guard)) == Goto(n.(lock := lock', heap := heap', live := live'), t, p')
    ensures Possible(c, m, run') && After(c, m, run') == At(m, t, p', lock', heap', live')
    ensures OnlyContinues(run) ==> OnlyContinues(run')
  {
    OneMore(c, m, run, Continue(t, guard));
    run' := run + [Continue(t, guard)];
    assert m.pc[t := p][t := p'] == m.pc[t := p'];
  }

  lemma Released(lock: map<Item, Tid>, it: Item, t: Tid)
    requires it !in lock
    ensures lock[it := t] - {it} == lock
  {
  }

  /** The stages of an allocation that has to bump, up to the read of the bump pointer. */
  lemma ReadAlone(c: Config, m: System, run: seq<Action>, t: Tid, size: nat, it: Item, useBump: bool)
      returns (run': seq<Action>)
    requires Possible(c, m, run) && it !in m.lock && (useBump || !ListOf(m.heap, it).next.To?)
    requires After(c, m, run) == At(m, t, Malloc(size, it, Locked(useBump)), m.lock[it := t], m.heap, m.live)
    ensures Possible(c, m, run')
    ensures After(c, m, run') == At(m, t, Malloc(size, it, Read(Pos(m.heap, it))), m.lock, m.heap, m.live)
  {
    var locked := m.lock[it := t];
    Released(m.lock, it, t);
    run' := Onward(c, m, run, t, false, Malloc(size, it, Locked(useBump)), locked, m.heap, m.live,
                   Malloc(size, it, Leaving), locked, m.heap, m.live);
    run' := Onward(c, m, run', t, false, Malloc(size, it, Leaving), locked, m.heap, m.live,
                   Malloc(size, it, Bumping), m.lock, m.heap, m.live);
    run' := Onward(c, m, run', t, false, Malloc(size, it, Bumping), m.lock, m.heap, m.live,
                   Malloc(size, it, Read(Pos(m.heap, it))), m.lock, m.heap, m.live);
  }

  /** The call, and the lock. */
  lemma LockAlone(c: Config, m: System, t: Tid, size: nat, random: nat, it: Item) returns (run: seq<Action>)
    requires Enabled(c, m, CallMalloc(t, size, random)) && it !in m.lock
    requires it.thread == m.threads.running[t] && it.bag == BagFor(size) && it.setItem == random % SET_SIZE
    ensures Possible(c, m, run)
    ensures After(c, m, run)
      == At(m, t, Malloc(size, it, Locked(random % RANDOMIZER == 0)), m.lock[it := t], m.heap, m.live)
  {
    var useBump := random % RANDOMIZER == 0;
    run := [CallMalloc(t, size, random)];
    assert run[1..] == [];
    assert After(c, m, run) == At(m, t, Malloc(size, it, Called(useBump)), m.lock, m.heap, m.live);
    run := Onward(c, m, run, t, false, Malloc(size, it, Called(useBump)), m.lock, m.heap, m.live,
                  Malloc(size, it, Locked(useBump)), m.lock[it := t], m.heap, m.live);
  }

  /** The slot is taken off the list, or the bump pointer gives it. */
  lemma TakenAlone(c: Config, m: System, run: seq<Action>, t: Tid, size: nat, it: Item, useBump: bool, guard: bool)
      returns (run': seq<Action>)
    requires Possible(c, m, run) && it !in m.lock
    requires After(c, m, run) == At(m, t, Malloc(size, it, Locked(useBump)), m.lock[it := t], m.heap, m.live)
    ensures Possible(c, m, run')
    ensures After(c, m, run') == At(m, t, Malloc(size, it, Got(MallocSlot(m.heap, it, useBump))), m.lock,
      TakenHeap(c, m.heap, it, useBump, guard), m.live)
  {
    hide Advance;
    var locked, s, h := m.lock[it := t], MallocSlot(m.heap, it, useBump), TakenHeap(c, m.heap, it, useBump, guard);
    Released(m.lock, it, t);
    if ListOf(m.heap, it).next.To? && !useBump {
      run' := Onward(c, m, run, t, false, Malloc(size, it, Locked(useBump)), locked, m.heap, m.live,
                     Malloc(size, it, Taken(s)), locked, h, m.live);
      run' := Onward(c, m, run', t, false, Malloc(size, it, Taken(s)), locked, h, m.live,
                     Malloc(size, it, Got(s)), m.lock, h, m.live);
    } else {
      run' := ReadAlone(c, m, run, t, size, it, useBump);
      run' := Onward(c, m, run', t, guard, Malloc(size, it, Read(s.k)), m.lock, m.heap, m.live,
                     Malloc(size, it, Got(s)), m.lock, h, m.live);
    }
  }

  /** An allocation left alone, up to the point where it has its slot and the canary is
      written: only the mark is missing. */
  lemma SealedAlone(c: Config, m: System, t: Tid, size: nat, random: nat, guard: bool, it: Item)
      returns (run: seq<Action>)
    requires Enabled(c, m, CallMalloc(t, size, random)) && it !in m.lock
    requires it.thread == m.threads.running[t] && it.bag == BagFor(size) && it.setItem == random % SET_SIZE
    ensures var useBump := random % RANDOMIZER == 0;
      var s := MallocSlot(m.heap, it, useBump);
      && Possible(c, m, run)
      && After(c, m, run) == At(m, t, Malloc(size, it, Sealed(s)), m.lock,
           WriteCanary(c, TakenHeap(c, m.heap, it, useBump, guard), s), m.live)
  {
    hide TakenHeap, MallocSlot, WriteCanary, BagFor;
    var useBump := random % RANDOMIZER == 0;
    var s, h := MallocSlot(m.heap, it, useBump), TakenHeap(c, m.heap, it, useBump, guard);
    run := LockAlone(c, m, t, size, random, it);
    run := TakenAlone(c, m, run, t, size, it, useBump, guard);
    run := Onward(c, m, run, t, false, Malloc(size, it, Got(s)), m.lock, h, m.live,
                  Malloc(size, it, Sealed(s)), m.lock, WriteCanary(c, h, s), m.live);
  }

  /** An allocation left alone is a run of the machine that ends in `MallocHeap` and makes
      `MallocSlot` live, whatever the random numbers. */
  lemma MallocAlone(c: Config, m: System, t: Tid, size: nat, random: nat, guard: bool, it: Item)
      returns (run: seq<Action>)
    requires Enabled(c, m, CallMalloc(t, size, random)) && it !in m.lock
    requires it.thread == m.threads.running[t] && it.bag == BagFor(size) && it.setItem == random % SET_SIZE
    ensures var useBump := random % RANDOMIZER == 0;
      && Possible(c, m, run)
      && After(c, m, run) == At(m, t, Idle, m.lock, MallocHeap(c, m.heap, it, useBump, guard),
           m.live + {MallocSlot(m.heap, it, useBump)})
  {
    var useBump := random % RANDOMIZER == 0;
    var s, h := MallocSlot(m.heap, it, useBump), TakenHeap(c, m.heap, it, useBump, guard);
    run := SealedAlone(c, m, t, size, random, guard, it);
    run := Onward(c, m, run, t, false, Malloc(size, it, Sealed(s)), m.lock, WriteCanary(c, h, s), m.live,
                  Idle, m.lock, MallocHeap(c, m.heap, it, useBump, guard), m.live + {s});
  }

  /** A slot in use whose canary is not what the allocator wrote. */
  ghost predicate Harmed(c: Config, h: Heap, n: Slot) {
    !ObjectFree(h, n) && Byte(h.mem, CanaryAddr(c, n)) != CANARY_SENTINEL
  }

  lemma ProbeAlone(c: Config, m: System, run: seq<Action>, t: Tid, s: Slot, n: Slot, todo: seq<Slot>, live: set<Slot>)
      returns (run': seq<Action>)
    requires Possible(c, m, run)
    requires After(c, m, run) == At(m, t, Free(s, Probe(n, todo)), m.lock, m.heap, live)
    ensures Possible(c, m, run')
    ensures After(c, m, run') == At(m, t,
      if Byte(m.heap.mem, CanaryAddr(c, n)) == CANARY_SENTINEL then Free(s, Walk(todo)) else Damaged(n),
      m.lock, m.heap, live)
    ensures OnlyContinues(run) ==> OnlyContinues(run')
  {
    if Byte(m.heap.mem, CanaryAddr(c, n)) == CANARY_SENTINEL {
      run' := Onward(c, m, run, t, false, Free(s, Probe(n, todo)), m.lock, m.heap, live,
                     Free(s, Walk(todo)), m.lock, m.heap, live);
    } else {
      run' := Onward(c, m, run, t, false, Free(s, Probe(n, todo)), m.lock, m.heap, live,
                     Damaged(n), m.lock, m.heap, live);
    }
  }

  /** The walk of a free left alone stops at the first harmed neighbour, if there is one. */
  lemma {:induction false} WalkAlone(c: Config, m: System, run: seq<Action>, t: Tid, s: Slot,
                                     todo: seq<Slot>, live: set<Slot>)
      returns (run': seq<Action>, found: Option<Slot>)
    requires Possible(c, m, run)
    requires After(c, m, run) == At(m, t, Free(s, Walk(todo)), m.lock, m.heap, live)
    requires s.item !in m.lock
    ensures Possible(c, m, run')
    ensures found.None? <==> forall r <- todo :: !Harmed(c, m.heap, r)
    ensures found.Some? ==> found.value in todo && Harmed(c, m.heap, found.value)
    ensures After(c, m, run')
      == At(m, t, if found.Some? then Damaged(found.value) else Free(s, Walk([])), m.lock, m.heap, live)
    ensures OnlyContinues(run) ==> OnlyContinues(run')
    decreases |todo|
  {
    run', found := run, None;
    if todo != [] {
      var r, rest := todo[0], todo[1..];
      assert todo == [r] + rest;
      if ObjectFree(m.heap, r) {
        run' := Onward(c, m, run', t, false, Free(s, Walk(todo)), m.lock, m.heap, live,
                       Free(s, Walk(rest)), m.lock, m.heap, live);
      } else {
        run' := Onward(c, m, run', t, false, Free(s, Walk(todo)), m.lock, m.heap, live,
                       Free(s, Probe(r, rest)), m.lock, m.heap, live);
        run' := ProbeAlone(c, m, run', t, s, r, rest, live);
        if Harmed(c, m.heap, r) {
          found := Some(r);
          return;
        }
      }
      run', found := WalkAlone(c, m, run', t, s, rest, live);
    }
  }

  /** Every slot marked allocated has its canary. */
  lemma SealedSlots(c: Config, m: System)
    requires Good(c, m)
    ensures forall s :: !ObjectFree(m.heap, s) ==> CanaryIntact(c, m.heap, s)
  {
    var q, P :| Inv(c, m, q, P);
  }

  lemma InsertAlone(c: Config, m: System, run: seq<Action>, t: Tid, s: Slot, live: set<Slot>)
      returns (run': seq<Action>)
    requires Possible(c, m, run) && s.item !in m.lock
    requires After(c, m, run) == At(m, t, Free(s, Walk([])), m.lock, m.heap, live)
    ensures Possible(c, m, run') && After(c, m, run') == At(m, t, Idle, m.lock, PutTail(m.heap, s), live)
    ensures OnlyContinues(run) ==> OnlyContinues(run')
  {
    var locked, h := m.lock[s.item := t], PutTail(m.heap, s);
    Released(m.lock, s.item, t);
    run' := Onward(c, m, run, t, false, Free(s, Walk([])), m.lock, m.heap, live,
                   Free(s, Inserting), locked, m.heap, live);
    run' := Onward(c, m, run', t, false, Free(s, Inserting), locked, m.heap, live, Free(s, Inserted), locked, h, live);
    run' := Onward(c, m, run', t, false, Free(s, Inserted), locked, h, live, Idle, m.lock, h, live);
  }

  /** The two slots on either side, as numbers. */
  lemma NeighbourNumbers(s: Slot, n: Slot)
    ensures n in Neighbours(s)
      <==> n.item == s.item && (n.k + 1 == s.k || n.k + 2 == s.k || n.k == s.k + 1 || n.k == s.k + 2)
  {
    var left1, left2 := if s.k >= 1 then [s.(k := s.k - 1)] else [], if s.k >= 2 then [s.(k := s.k - 2)] else [];
    assert Neighbours(s) == left1 + left2 + [s.(k := s.k + 1), s.(k := s.k + 2)];
    assert n in Neighbours(s) <==> n in left1 || n in left2 || n in [s.(k := s.k + 1), s.(k := s.k + 2)];
  }

  /** A free that has passed the sentinel test, left alone from there on. It ends in the damage
      report exactly when the canary of the freed slot, or that of one in use among the two
      slots on either side, has been overwritten; otherwise in the insertion. */
  lemma FinishFree(c: Config, m: System, run: seq<Action>, t: Tid, s: Slot, live: set<Slot>)
      returns (run': seq<Action>, found: Option<Slot>)
    requires Possible(c, m, run) && s.item !in m.lock
    requires After(c, m, run) == At(m, t, Free(s, Probe(s, Neighbours(s))), m.lock, m.heap, live)
    ensures Possible(c, m, run')
    ensures found.Some? <==> (Byte(m.heap.mem, CanaryAddr(c, s)) != CANARY_SENTINEL || exists n: Slot ::
      && n.item == s.item && (n.k + 1 == s.k || n.k + 2 == s.k || n.k == s.k + 1 || n.k == s.k + 2)
      && !ObjectFree(m.heap, n) && Byte(m.heap.mem, CanaryAddr(c, n)) != CANARY_SENTINEL)
    ensures After(c, m, run') == if found.Some? then At(m, t, Damaged(found.value), m.lock, m.heap, live)
      else At(m, t, Idle, m.lock, PutTail(m.heap, s), live)
    ensures OnlyContinues(run) ==> OnlyContinues(run')
  {
    hide Neighbours, ObjectFree;
    var todo := Neighbours(s);
    run' := ProbeAlone(c, m, run, t, s, s, todo, live);
    if Byte(m.heap.mem, CanaryAddr(c, s)) != CANARY_SENTINEL {
      found := Some(s);
      return;
    }
    run', found := WalkAlone(c, m, run', t, s, todo, live);
    forall n ensures n in todo <==>
      n.item == s.item && (n.k + 1 == s.k || n.k + 2 == s.k || n.k == s.k + 1 || n.k == s.k + 2)
    {
      NeighbourNumbers(s, n);
    }
    if found.Some? {
      assert Harmed(c, m.heap, found.value);
    } else {
      run' := InsertAlone(c, m, run', t, s, live);
    }
  }

  /** A free of a slot in use, left alone, whatever its client and others have written. */
  lemma FreeAlone(c: Config, m: System, t: Tid, s: Slot) returns (run: seq<Action>, found: Option<Slot>)
    requires Enabled(c, m, CallFree(t, s)) && !ObjectFree(m.heap, s) && s.item !in m.lock
    ensures Possible(c, m, run) && run != [] && run[0] == CallFree(t, s) && OnlyContinues(run[1..])
    ensures found.Some? <==> (Byte(m.heap.mem, CanaryAddr(c, s)) != CANARY_SENTINEL || exists n: Slot ::
      && n.item == s.item && (n.k + 1 == s.k || n.k + 2 == s.k || n.k == s.k + 1 || n.k == s.k + 2)
      && !ObjectFree(m.heap, n) && Byte(m.heap.mem, CanaryAddr(c, n)) != CANARY_SENTINEL)
    ensures After(c, m, run) == if found.Some? then At(m, t, Damaged(found.value), m.lock, m.heap, m.live - {s})
      else At(m, t, Idle, m.lock, PutTail(m.heap, s), m.live - {s})
  {
    hide Neighbours, ObjectFree, Byte, CanaryAddr, PutTail;
    var m1 := Perform(c, m, CallFree(t, s));
    var rest;
    rest, found := FinishFree(c, m1, [], t, s, m1.live);
    run := [CallFree(t, s)] + rest;
    assert run[1..] == rest;
  }

  /** The links and headers of a quiet list name slots of its own item only. */
  lemma OwnSlots(c: Config, m: System, it: Item)
    requires Good(c, m)
    ensures var d := ListOf(m.heap, it);
      && (d.next.Null? || (d.next.To? && d.next.node.item == it && d.next.node !in m.live))
      && (d.prev.Null? || (d.prev.To? && d.prev.node.item == it && d.prev.node !in m.live))
      && (d.next.Null? <==> d.prev.Null?)
    ensures Slot(it, Pos(m.heap, it)) !in m.live
  {
    var q, P :| Inv(c, m, q, P);
    var xs := QueueOf(q, it);
    assert QueueSpelled(m.heap, q, P, it);
    if xs != [] {
      assert xs[0] in xs && xs[|xs| - 1] in xs;
    }
    assert PlaceOf(P, Slot(it, Pos(m.heap, it))) == Nowhere;
  }

  /** No thread is inside the heap. */
  ghost predicate Quiet(m: System) {
    m.lock == map[] && forall t :: !PCOf(m, t).Malloc? && !PCOf(m, t).Free?
  }

  lemma QuietThread(m: System, t: Tid)
    requires Quiet(m)
    ensures Freeing(PCOf(m, t)) == None
  {
  }

  lemma QuietAfter(m: System, t: Tid, heap: Heap, live: set<Slot>)
    requires Quiet(m)
    ensures Quiet(At(m, t, Idle, map[], heap, live))
  {
    assert forall u :: PCOf(At(m, t, Idle, map[], heap, live), u) == if u == t then Idle else PCOf(m, u);
  }

  /** A quiet machine allocates: the result is good and quiet again, one new slot live. */
  lemma MallocQuietly(c: Config, m: System, t: Tid, size: nat, random: nat, low: bool, it: Item)
    requires Good(c, m) && Quiet(m) && Enabled(c, m, CallMalloc(t, size, random))
    requires it.thread == m.threads.running[t] && it.bag == BagFor(size) && it.setItem == random % SET_SIZE
    ensures var useBump := random % RANDOMIZER == 0;
      var s := MallocSlot(m.heap, it, useBump);
      var m' := At(m, t, Idle, map[], MallocHeap(c, m.heap, it, useBump, low), m.live + {s});
      Good(c, m') && Quiet(m') && s !in m.live && s.item == it
  {
    var run := MallocAlone(c, m, t, size, random, low, it);
    EveryRunGood(c, m, run);
    var useBump := random % RANDOMIZER == 0;
    QuietAfter(m, t, MallocHeap(c, m.heap, it, useBump, low), m.live + {MallocSlot(m.heap, it, useBump)});
    OwnSlots(c, m, it);
  }

  /** A quiet machine frees a live slot. */
  lemma FreeQuietly(c: Config, m: System, t: Tid, s: Slot)
    requires Good(c, m) && Quiet(m) && Enabled(c, m, CallFree(t, s)) && s in m.live
    ensures var m' := At(m, t, Idle, map[], PutTail(m.heap, s), m.live - {s});
      Good(c, m') && Quiet(m')
  {
    FreeAcceptsExactlyLive(c, m, t, s);
    SealedSlots(c, m);
    var run, found := FreeAlone(c, m, t, s);
    EveryRunGood(c, m, run);
    QuietAfter(m, t, PutTail(m.heap, s), m.live - {s});
  }

  lemma StoreQuietly(c: Config, m: System, s: Slot, offset: nat, value: int)
    requires Good(c, m) && Quiet(m) && Enabled(c, m, ClientWrite(s, offset, value))
    ensures var m' := m.(heap := m.heap.(mem := m.heap.mem[UserAddr(c, s) + offset := value]));
      m' == Perform(c, m, ClientWrite(s, offset, value)) && Good(c, m') && Quiet(m')
  {
    hide Good;
    StepKeeps(c, m, ClientWrite(s, offset, value));
    var m' := Perform(c, m, ClientWrite(s, offset, value));
    assert forall u :: PCOf(m', u) == PCOf(m, u);
  }
}
