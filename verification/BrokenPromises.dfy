/** Runs in which a promise is broken, from start-up to the harm that is done. */
module BrokenPromises {
  import opened Arithmetic
  import opened Layout
  import opened Slots
  import opened FreeLists
  import opened Options
  import opened Threads
  import opened Machine
  import opened Uninterrupted

  // ------------------------------------------------------------ runs without promises

  /** Every action can happen where it does, whether its promise is kept or not. */
  ghost predicate Happens(c: Config, m: System, run: seq<Action>)
    decreases |run|
  {
    run == [] || (CanHappen(c, m, run[0]) && Happens(c, Perform(c, m, run[0]), run[1..]))
  }

  ghost function EndOf(c: Config, m: System, run: seq<Action>): System
    requires Happens(c, m, run)
    decreases |run|
  {
    if run == [] then m else EndOf(c, Perform(c, m, run[0]), run[1..])
  }

  lemma {:induction false} KeptHappens(c: Config, m: System, run: seq<Action>)
    requires Possible(c, m, run)
    ensures Happens(c, m, run) && EndOf(c, m, run) == After(c, m, run)
    decreases |run|
  {
    hide CanHappen, Promised, Perform;
    if run != [] { KeptHappens(c, Perform(c, m, run[0]), run[1..]); }
  }

  lemma {:induction false} RunsJoin(c: Config, m: System, run: seq<Action>, more: seq<Action>)
    requires Happens(c, m, run) && Happens(c, EndOf(c, m, run), more)
    ensures Happens(c, m, run + more) && EndOf(c, m, run + more) == EndOf(c, EndOf(c, m, run), more)
    decreases |run|
  {
    hide CanHappen, Perform;
    if run == [] {
      assert run + more == more;
    } else {
      RunsJoin(c, Perform(c, m, run[0]), run[1..], more);
      assert (run + more)[1..] == run[1..] + more;
    }
  }

  /** A run goes on with steps that keep their promises. */
  lemma RunOn(c: Config, m: System, run: seq<Action>, more: seq<Action>) returns (run': seq<Action>)
    requires Happens(c, m, run) && Possible(c, EndOf(c, m, run), more)
    ensures Happens(c, m, run') && EndOf(c, m, run') == After(c, EndOf(c, m, run), more)
  {
    KeptHappens(c, EndOf(c, m, run), more);
    RunsJoin(c, m, run, more);
    run' := run + more;
  }

  lemma OneStep(c: Config, m: System, run: seq<Action>, a: Action) returns (run': seq<Action>)
    requires Happens(c, m, run) && CanHappen(c, EndOf(c, m, run), a)
    ensures Happens(c, m, run') && EndOf(c, m, run') == Perform(c, EndOf(c, m, run), a)
  {
    hide CanHappen, Perform;
    var n := EndOf(c, m, run);
    assert [a][1..] == [] && Happens(c, Perform(c, n, a), []);
    RunsJoin(c, m, run, [a]);
    run' := run + [a];
  }

  /** A history of thread creations and joins, as actions. */
  function Moves(es: seq<Event>): seq<Action> {
    if es == [] then [] else [ThreadEvent(es[0])] + Moves(es[1..])
  }

  lemma {:induction false} ThreadsMove(c: Config, m: System, es: seq<Event>)
    requires m.pc == map[] && m.threads.Shape() && LegalHistory(m.threads, es)
    ensures Happens(c, m, Moves(es)) && EndOf(c, m, Moves(es)) == m.(threads := Run(m.threads, es))
    decreases |es|
  {
    hide Table.Shape, Legal, Apply;
    if es != [] {
      var a := ThreadEvent(es[0]);
      assert CanHappen(c, m, a) && Perform(c, m, a) == m.(threads := Apply(m.threads, es[0]));
      ThreadsMove(c, Perform(c, m, a), es[1..]);
      assert Moves(es)[0] == a && Moves(es)[1..] == Moves(es[1..]);
    }
  }

  /** Thread `t` has a slot, canary written, and will return it with its next step. */
  ghost predicate AboutToReturn(m: System, t: Tid, s: Slot) {
    PCOf(m, t).Malloc? && PCOf(m, t).stage == Sealed(s)
  }

  // ------------------------------------------------------------ two frees of one object

  lemma {:induction false} Concat(c: Config, m: System, run: seq<Action>, more: seq<Action>)
    requires Possible(c, m, run) && Possible(c, After(c, m, run), more)
    ensures Possible(c, m, run + more) && After(c, m, run + more) == After(c, After(c, m, run), more)
    decreases |run|
  {
    hide CanHappen, Promised, Perform;
    if run == [] {
      assert run + more == more;
    } else {
      Concat(c, Perform(c, m, run[0]), run[1..], more);
      assert (run + more)[1..] == run[1..] + more;
    }
  }

  /** Inserting a slot that is the tail already links it to itself. */
  lemma PutTwice(h: Heap, s: Slot)
    ensures var h' := PutTail(PutTail(h, s), s);
      Next(h'.link, s) == To(s) && ListOf(h', s.item).prev == To(s)
  {
  }

  /** The machine after threads `t` and `u` have both passed the sentinel test of `s`. */
  ghost function BothPassed(m: System, t: Tid, u: Tid, s: Slot): System {
    var p := Free(s, Probe(s, Neighbours(s)));
    Goto(Goto(m.(live := m.live - {s}), t, p), u, p)
  }

  lemma BothPass(c: Config, m: System, t: Tid, u: Tid, s: Slot)
    requires Good(c, m) && Quiet(m) && s in m.live && ValidItem(c, s.item) && t != u
    requires PCOf(m, t).Idle? && PCOf(m, u).Idle? && t in m.threads.running && u in m.threads.running
    ensures Enabled(c, m, CallFree(t, s))
    ensures var m1 := Perform(c, m, CallFree(t, s));
      CanHappen(c, m1, CallFree(u, s)) && !Promised(m1, CallFree(u, s))
      && Perform(c, m1, CallFree(u, s)) == BothPassed(m, t, u, s)
  {
    hide Good, Quiet;
    assert Promised(m, CallFree(t, s)) by {
      forall v | v in m.pc ensures Freeing(m.pc[v]) == None { QuietThread(m, v); }
    }
    FreeAcceptsExactlyLive(c, m, t, s);
    var m1 := Perform(c, m, CallFree(t, s));
    assert t in m1.pc && Freeing(m1.pc[t]) == Some(s);
    assert m1.live - {s} == m1.live;
  }

  /** Inserting a slot seals and marks nothing. */
  lemma StillSealed(c: Config, h: Heap, s: Slot)
    requires forall r :: !ObjectFree(h, r) ==> CanaryIntact(c, h, r)
    ensures forall r :: !ObjectFree(PutTail(h, s), r) ==> CanaryIntact(c, PutTail(h, s), r)
    ensures CanaryIntact(c, h, s) ==> CanaryIntact(c, PutTail(h, s), s)
  {
    forall r | !ObjectFree(PutTail(h, s), r) ensures CanaryIntact(c, PutTail(h, s), r) {
      assert Next(h.link, r) == Next(PutTail(h, s).link, r);
      assert CanaryIntact(c, h, r);
    }
  }

  /** With all canaries in place a free that is left alone inserts its slot. */
  lemma FinishSealed(c: Config, m: System, t: Tid, s: Slot) returns (run: seq<Action>)
    requires s.item !in m.lock && PCOf(m, t) == Free(s, Probe(s, Neighbours(s))) && CanaryIntact(c, m.heap, s)
    requires forall r :: !ObjectFree(m.heap, r) ==> CanaryIntact(c, m.heap, r)
    ensures Possible(c, m, run) && After(c, m, run) == At(m, t, Idle, m.lock, PutTail(m.heap, s), m.live)
    ensures OnlyContinues(run)
  {
    hide Enabled, Perform, PutTail, Neighbours;
    assert m.pc[t := PCOf(m, t)] == m.pc;
    var found;
    run, found := FinishFree(c, m, [], t, s, m.live);
  }

  lemma FinishBoth(c: Config, m: System, t: Tid, u: Tid, s: Slot) returns (run: seq<Action>)
    requires t != u && m.lock == map[] && (forall r :: !ObjectFree(m.heap, r) ==> CanaryIntact(c, m.heap, r))
    requires PCOf(m, t) == PCOf(m, u) == Free(s, Probe(s, Neighbours(s))) && CanaryIntact(c, m.heap, s)
    ensures Possible(c, m, run) && OnlyContinues(run)
    ensures var m' := After(c, m, run);
      && PCOf(m', t).Idle? && PCOf(m', u).Idle? && m'.threads == m.threads && m'.lock == map[]
      && m'.heap == PutTail(PutTail(m.heap, s), s) && m'.live == m.live
  {
    hide Enabled, CanHappen, Perform, PutTail, CanaryIntact;
    run := FinishSealed(c, m, t, s);
    var m' := After(c, m, run);
    StillSealed(c, m.heap, s);
    var more := FinishSealed(c, m', u, s);
    Concat(c, m, run, more);
    run := run + more;
  }

  /** Two threads free one live object, and the second passes the sentinel test before the
      first has inserted it: neither is refused, and the list ends in a slot whose successor
      is that slot itself. Nothing but the second thread's promise excludes this run. */
  lemma RacingFreesQueueTwice(c: Config, m: System, t: Tid, u: Tid, s: Slot) returns (run: seq<Action>)
    requires Good(c, m) && Quiet(m) && s in m.live && ValidItem(c, s.item) && t != u
    requires PCOf(m, t).Idle? && PCOf(m, u).Idle? && t in m.threads.running && u in m.threads.running
    ensures Enabled(c, m, CallFree(t, s))
    ensures var m1 := Perform(c, m, CallFree(t, s));
      CanHappen(c, m1, CallFree(u, s)) && !Promised(m1, CallFree(u, s))
      && Perform(c, m1, CallFree(u, s)) == BothPassed(m, t, u, s)
    ensures Possible(c, BothPassed(m, t, u, s), run) && OnlyContinues(run)
    ensures var m' := After(c, BothPassed(m, t, u, s), run);
      && PCOf(m', t).Idle? && PCOf(m', u).Idle? && m'.threads == m.threads && m'.lock == map[]
      && m'.heap == PutTail(PutTail(m.heap, s), s) && m'.live == m.live - {s}
      && Next(m'.heap.link, s) == To(s) && ListOf(m'.heap, s.item).prev == To(s)
  {
    hide Enabled, CanHappen, Promised, Perform, Possible, After, Good, PutTail, CanaryIntact;
    BothPass(c, m, t, u, s);
    SealedSlots(c, m);
    FreeAcceptsExactlyLive(c, m, t, s);
    var m2 := BothPassed(m, t, u, s);
    run := FinishBoth(c, m2, t, u, s);
    PutTwice(m.heap, s);
  }

  lemma {:induction false} NoJoins(t: Table, es: seq<Event>)
    requires t.Shape() && LegalHistory(t, es) && forall e <- es :: !e.Release?
    ensures EachKnown(t, es)
    decreases |es|
  {
    hide Table.Shape, Legal, Apply;
    if es != [] {
      assert es[0] in es && forall e <- es[1..] :: e in es;
      NoJoins(Apply(t, es[0]), es[1..]);
    }
  }

  /** The main thread and one more. */
  lemma TwoThreads() returns (es: seq<Event>)
    ensures LegalHistory(INITIAL, es) && Consistent(Run(INITIAL, es))
    ensures Run(INITIAL, es).running == map[0 := 0, 1 := 1]
  {
    hide LegalHistory, Run, EachKnown, Consistent;
    es := JustMain();
    Created(INITIAL, es, Summary(1, 1, {0}, map[0 := 0], map[0 := 0]), 1, 1);
    es := es + [Reserve, Start(1, 1), Enter(1, 1)];
    NoJoins(INITIAL, es);
    EveryHistory(es);
  }

  /** The machine when threads have been created and nobody has called the heap yet. */
  lemma ThreadsOnly(c: Config, t: Table)
    requires c.Valid() && Consistent(t)
    ensures Good(c, BOOT.(threads := t)) && Quiet(BOOT.(threads := t))
  {
    hide Consistent;
    assert Inv(c, BOOT.(threads := t), map[], map[]);
  }

  lemma SmallRequest(c: Config)
    requires c.Valid()
    ensures !IsLarge(c, 1) && 0 <= BagFor(1) < c.UsableBags() && WithCanary(1) == 2
  {
    Pow2Monotone(MIN_BLOCK_BITS, c.largeBits);
    BagForFits(c, 1);
  }

  /** Twice on an empty list, the slot heads it for ever. */
  lemma PutTwiceOnEmpty(h: Heap, s: Slot)
    requires ListOf(h, s.item) == InitDLL()
    ensures ListOf(PutTail(PutTail(h, s), s), s.item).next == To(s)
  {
  }

  lemma HeadStays(c: Config, h: Heap, s: Slot)
    requires ListOf(h, s.item).next == To(s) && Next(h.link, s) == To(s)
    ensures MallocSlot(h, s.item, false) == s
    ensures ListOf(MallocHeap(c, h, s.item, false, false), s.item).next == To(s)
  {
  }

  lemma NewListEmpty(c: Config, it: Item)
    ensures MallocSlot(EMPTY_HEAP, it, false) == Slot(it, 0)
    ensures ListOf(MallocHeap(c, EMPTY_HEAP, it, false, false), it) == InitDLL()
  {
  }

  lemma SealsHead(c: Config, m: System, s: Slot)
    requires ListOf(m.heap, s.item).next == To(s)
    ensures MallocSlot(m.heap, s.item, false) == s
  {
  }

  /** From start-up to a quiet heap with one live object and two threads. */
  lemma OneLiveObject(c: Config, it: Item) returns (run: seq<Action>, m: System)
    requires c.Valid() && it == Item(0, BagFor(1), 1)
    ensures Happens(c, BOOT, run) && m == EndOf(c, BOOT, run)
    ensures Good(c, m) && Quiet(m) && m.threads.running == map[0 := 0, 1 := 1]
    ensures PCOf(m, 0).Idle? && PCOf(m, 1).Idle? && m.live == {Slot(it, 0)} && ListOf(m.heap, it) == InitDLL()
    ensures ValidItem(c, it)
  {
    hide Happens, EndOf, Possible, After, Good, Inv, MallocHeap, MallocSlot, LegalHistory, Run, Consistent;
    SmallRequest(c);
    var es := TwoThreads();
    ThreadsMove(c, BOOT, es);
    m := BOOT.(threads := Run(INITIAL, es));
    ThreadsOnly(c, m.threads);
    NewListEmpty(c, it);
    var more := MallocAlone(c, m, 0, 1, 1, false, it);
    run := RunOn(c, BOOT, Moves(es), more);
    MallocQuietly(c, m, 0, 1, 1, false, it);
    m := At(m, 0, Idle, m.lock, MallocHeap(c, m.heap, it, false, false), m.live + {Slot(it, 0)});
  }

  lemma BothPassedThreads(m: System, t: Tid, u: Tid, s: Slot)
    ensures BothPassed(m, t, u, s).threads == m.threads && BothPassed(m, t, u, s).heap == m.heap
  {
  }

  /** On to a heap whose free list is one slot linked to itself. */
  lemma FreedTwice(c: Config, run: seq<Action>, m: System, it: Item) returns (run': seq<Action>, m': System)
    requires Happens(c, BOOT, run) && m == EndOf(c, BOOT, run)
    requires Good(c, m) && Quiet(m) && m.threads.running == map[0 := 0, 1 := 1] && ValidItem(c, it)
    requires PCOf(m, 0).Idle? && PCOf(m, 1).Idle? && m.live == {Slot(it, 0)} && ListOf(m.heap, it) == InitDLL()
    ensures Happens(c, BOOT, run') && m' == EndOf(c, BOOT, run')
    ensures PCOf(m', 0).Idle? && m'.threads.running == map[0 := 0, 1 := 1] && m'.lock == map[]
    ensures ListOf(m'.heap, it).next == To(Slot(it, 0)) && Next(m'.heap.link, Slot(it, 0)) == To(Slot(it, 0))
  {
    hide Happens, EndOf, Possible, After, Good, Quiet, PutTail, CanHappen, Perform, BothPassed;
    var s := Slot(it, 0);
    var more := RacingFreesQueueTwice(c, m, 0, 1, s);
    run' := OneStep(c, BOOT, run, CallFree(0, s));
    run' := OneStep(c, BOOT, run', CallFree(1, s));
    run' := RunOn(c, BOOT, run', more);
    m' := EndOf(c, BOOT, run');
    PutTwiceOnEmpty(m.heap, s);
    BothPassedThreads(m, 0, 1, s);
  }

  /** From start-up: the main thread and thread 1 free one object at once, and two allocations
      return it, the second while it is live. */
  lemma DoubleFreeReturnsLive(c: Config) returns (run: seq<Action>, s: Slot)
    requires c.Valid()
    ensures Happens(c, BOOT, run)
    ensures AboutToReturn(EndOf(c, BOOT, run), 0, s) && s in EndOf(c, BOOT, run).live
  {
    hide Happens, EndOf, Possible, After, Good, Quiet, MallocHeap, MallocSlot, PutTail;
    SmallRequest(c);
    var it := Item(0, BagFor(1), 1);
    s := Slot(it, 0);
    var m;
    run, m := OneLiveObject(c, it);
    run, m := FreedTwice(c, run, m, it);
    HeadStays(c, m.heap, s);
    var more := MallocAlone(c, m, 0, 1, 1, false, it);
    run := RunOn(c, BOOT, run, more);
    m := At(m, 0, Idle, m.lock, MallocHeap(c, m.heap, it, false, false), m.live + {s});
    SealsHead(c, m, s);
    more := SealedAlone(c, m, 0, 1, 1, false, it);
    run := RunOn(c, BOOT, run, more);
  }

  // ------------------------------------------------------------ a join before the entry

  /** From idle to the read of the bump pointer. */
  lemma ReadsPointer(c: Config, m: System, t: Tid, size: nat, random: nat, it: Item) returns (run: seq<Action>)
    requires Enabled(c, m, CallMalloc(t, size, random)) && it !in m.lock && ListOf(m.heap, it) == InitDLL()
    requires it.thread == m.threads.running[t] && it.bag == BagFor(size) && it.setItem == random % SET_SIZE
    ensures Possible(c, m, run)
    ensures After(c, m, run) == At(m, t, Malloc(size, it, Read(Pos(m.heap, it))), m.lock, m.heap, m.live)
  {
    hide Enabled;
    run := LockAlone(c, m, t, size, random, it);
    run := ReadAlone(c, m, run, t, size, it, random % RANDOMIZER == 0);
  }

  /** From there to the written canary. */
  lemma SealsSlot(c: Config, m: System, t: Tid, size: nat, it: Item, k: nat) returns (run: seq<Action>)
    requires PCOf(m, t) == Malloc(size, it, Read(k))
    ensures Possible(c, m, run)
    ensures After(c, m, run) == At(m, t, Malloc(size, it, Sealed(Slot(it, k))), m.lock,
      WriteCanary(c, Advance(c, m.heap, it, false), Slot(it, k)), m.live)
  {
    hide Advance, WriteCanary;
    var s, h := Slot(it, k), Advance(c, m.heap, it, false);
    run := [];
    assert m.pc[t := PCOf(m, t)] == m.pc && After(c, m, run) == At(m, t, PCOf(m, t), m.lock, m.heap, m.live);
    run := Onward(c, m, run, t, false, Malloc(size, it, Read(k)), m.lock, m.heap, m.live,
                  Malloc(size, it, Got(s)), m.lock, h, m.live);
    run := Onward(c, m, run, t, false, Malloc(size, it, Got(s)), m.lock, h, m.live,
                  Malloc(size, it, Sealed(s)), m.lock, WriteCanary(c, h, s), m.live);
  }

  /** From start-up, with all `pthread_t` values different: thread 1 is joined too early,
      threads 2 and 3 run with one index, read one bump pointer, and get one slot. */
  lemma SharedIndexReturnsTwice(c: Config) returns (run: seq<Action>, s: Slot)
    requires c.Valid() && c.Threads() > 2
    ensures Happens(c, BOOT, run)
    ensures AboutToReturn(EndOf(c, BOOT, run), 2, s) && AboutToReturn(EndOf(c, BOOT, run), 3, s)
  {
    hide Happens, EndOf, Possible, After, Advance, WriteCanary, LegalHistory, Run;
    SmallRequest(c);
    var it := Item(2, BagFor(1), 1);
    s := Slot(it, 0);
    var es := EarlyJoinSharesAnIndex();
    ThreadsMove(c, BOOT, es);
    var m := BOOT.(threads := Run(INITIAL, es));
    var more := ReadsPointer(c, m, 2, 1, 1, it);
    run := RunOn(c, BOOT, Moves(es), more);
    m := EndOf(c, BOOT, run);
    more := ReadsPointer(c, m, 3, 1, 1, it);
    run := RunOn(c, BOOT, run, more);
    m := EndOf(c, BOOT, run);
    more := SealsSlot(c, m, 2, 1, it, 0);
    run := RunOn(c, BOOT, run, more);
    m := EndOf(c, BOOT, run);
    more := SealsSlot(c, m, 3, 1, it, 0);
    run := RunOn(c, BOOT, run, more);
  }
}
