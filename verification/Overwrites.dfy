/** Clients that write where they should not. Slots, lists, locks and threads are kept apart
    from the bytes clients can reach, so overwriting bytes, canaries included, disturbs none
    of them: such a machine is a good one but for its bytes. */
module Overwrites {
  import opened Layout
  import opened Slots
  import opened FreeLists
  import opened Sequences
  import opened Threads
  import opened Machine
  import opened Uninterrupted

  ghost function WithBytes(m: System, mem: map<nat, int>): System {
    m.(heap := m.heap.(mem := mem))
  }

  /** With other bytes the machine would be good. */
  ghost predicate GoodButBytes(c: Config, m: System) {
    exists mem: map<nat, int> :: Good(c, WithBytes(m, mem))
  }

  lemma GoodIsGoodButBytes(c: Config, m: System)
    requires Good(c, m)
    ensures GoodButBytes(c, m)
  {
    assert WithBytes(m, m.heap.mem) == m;
  }

  /** A good machine with the same slots, lists, locks and threads. */
  lemma Restored(c: Config, m: System) returns (g: System)
    requires GoodButBytes(c, m)
    ensures Good(c, g) && g == WithBytes(m, g.heap.mem) && m == WithBytes(g, m.heap.mem)
    ensures forall t :: PCOf(g, t) == PCOf(m, t)
  {
    var mem: map<nat, int> :| Good(c, WithBytes(m, mem));
    g := WithBytes(m, mem);
  }

  lemma FromRestored(c: Config, m: System, g: System)
    requires Good(c, g) && g == WithBytes(m, g.heap.mem)
    ensures GoodButBytes(c, m)
  {
  }

  // ------------------------------------------------------------ what still holds

  lemma OwnSlotsStill(c: Config, m: System, it: Item)
    requires GoodButBytes(c, m)
    ensures var d := ListOf(m.heap, it);
      && (d.next.Null? || (d.next.To? && d.next.node.item == it && d.next.node !in m.live))
      && (d.prev.Null? || (d.prev.To? && d.prev.node.item == it && d.prev.node !in m.live))
      && (d.next.Null? <==> d.prev.Null?)
    ensures Slot(it, Pos(m.heap, it)) !in m.live
  {
    var g := Restored(c, m);
    OwnSlots(c, g, it);
  }

  lemma FreeStillAcceptsLive(c: Config, m: System, t: Tid, s: Slot)
    requires GoodButBytes(c, m) && Enabled(c, m, CallFree(t, s))
    ensures !ObjectFree(m.heap, s) <==> s in m.live
  {
    var g := Restored(c, m);
    FreeAcceptsExactlyLive(c, g, t, s);
  }

  lemma LiveStillValid(c: Config, m: System, s: Slot)
    requires GoodButBytes(c, m) && s in m.live
    ensures ValidItem(c, s.item) && !ObjectFree(m.heap, s)
  {
    var g := Restored(c, m);
    var q, P :| Inv(c, g, q, P);
    assert PlaceOf(P, s) == Live;
  }

  /** What a thread knows of the slots it works on. */
  ghost predicate ThreadValid(c: Config, m: System, t: Tid) {
    match PCOf(m, t)
    case Malloc(size, it, stage) =>
      && ValidItem(c, it) && t in m.threads.running && m.threads.running[t] == it.thread && it.bag == BagFor(size)
      && (match stage
          case Read(k) => k == Pos(m.heap, it)
          case Taken(s) => s.item == it
          case Got(s) => s.item == it
          case Sealed(s) => s.item == it
          case _ => true)
    case Free(s, _) => ValidItem(c, s.item) && t in m.threads.running
    case _ => true
  }

  lemma ThreadStillValid(c: Config, m: System, t: Tid)
    requires GoodButBytes(c, m)
    ensures ThreadValid(c, m, t)
  {
    var g := Restored(c, m);
    var q, P :| Inv(c, g, q, P);
    assert PCValid(c, g, t);
  }

  lemma SamePlacesMatch(c: Config, m: System, g: System, P: map<Slot, Place>)
    requires PlacesMatch(c, g, P) && g == WithBytes(m, g.heap.mem)
    ensures PlacesMatch(c, m, P)
  {
    assert forall t :: PCOf(g, t) == PCOf(m, t);
  }

  // ------------------------------------------------------------ steps and runs

  /** Writes may go anywhere; the promises about frees and joins are kept. */
  predicate Tolerated(m: System, a: Action) { a.ClientWrite? || Promised(m, a) }

  /** The step ends the process with the damage report. */
  ghost predicate Reports(c: Config, m: System, a: Action)
    requires CanHappen(c, m, a)
  {
    a.Continue? && PCOf(Perform(c, m, a), a.t).Damaged?
  }

  lemma MallocBytes(c: Config, m: System, g: System, t: Tid, size: nat, it: Item, stage: MallocStage, guard: bool)
    requires g == WithBytes(m, g.heap.mem)
    ensures var g' := MallocStep(c, g, t, size, it, stage, guard);
      g' == WithBytes(MallocStep(c, m, t, size, it, stage, guard), g'.heap.mem)
  {
    hide IsDLLEmpty, RemoveDLLHead, PageAligned;
    match stage {
      case Locked(useBump) =>
      case Read(k) =>
      case Got(s) =>
      case Sealed(s) =>
      case _ =>
    }
  }

  lemma FreeBytes(c: Config, m: System, g: System, t: Tid, s: Slot, stage: FreeStage)
    requires g == WithBytes(m, g.heap.mem)
    requires stage.Probe? ==> Byte(m.heap.mem, CanaryAddr(c, stage.n)) == CANARY_SENTINEL
    requires stage.Probe? ==> Byte(g.heap.mem, CanaryAddr(c, stage.n)) == CANARY_SENTINEL
    ensures var g' := FreeStep(c, g, t, s, stage); g' == WithBytes(FreeStep(c, m, t, s, stage), g'.heap.mem)
  {
    hide InsertDLLTail, CanaryAddr;
  }

  /** Bytes decide about nothing but the damage report. */
  lemma BytesDecideNothing(c: Config, m: System, g: System, a: Action)
    requires g == WithBytes(m, g.heap.mem) && CanHappen(c, m, a) && !a.ClientWrite?
    requires !Reports(c, m, a)
    requires CanHappen(c, g, a) && !Reports(c, g, a)
    ensures Perform(c, g, a) == WithBytes(Perform(c, m, a), Perform(c, g, a).heap.mem)
  {
    hide MallocStep, BagFor, Neighbours;
    assert forall t :: PCOf(g, t) == PCOf(m, t);
    if a.Continue? && PCOf(m, a.t).Malloc? {
      var p := PCOf(m, a.t);
      MallocBytes(c, m, g, a.t, p.size, p.it, p.stage, a.guard);
    } else if a.Continue? && PCOf(m, a.t).Free? {
      FreeBytes(c, m, g, a.t, PCOf(m, a.t).slot, PCOf(m, a.t).fstage);
    }
  }

  lemma SameChoices(c: Config, m: System, g: System, a: Action)
    requires g == WithBytes(m, g.heap.mem) && CanHappen(c, m, a)
    ensures CanHappen(c, g, a) && (Promised(m, a) ==> Promised(g, a))
    ensures a.ClientWrite? ==> g == WithBytes(Perform(c, m, a), g.heap.mem)
  {
    assert forall t :: PCOf(g, t) == PCOf(m, t);
  }

  lemma NoReport(c: Config, g: System, a: Action)
    requires Good(c, g) && CanHappen(c, g, a) && Good(c, Perform(c, g, a))
    ensures !Reports(c, g, a)
  {
    if a.Continue? { CanariesNeverDamaged(c, Perform(c, g, a), a.t); }
  }

  lemma StepKeepsButBytes(c: Config, m: System, a: Action)
    requires GoodButBytes(c, m) && CanHappen(c, m, a) && Tolerated(m, a)
    ensures Reports(c, m, a) || GoodButBytes(c, Perform(c, m, a))
  {
    hide Good, Perform, CanHappen;
    var g := Restored(c, m);
    SameChoices(c, m, g, a);
    if a.ClientWrite? {
      FromRestored(c, Perform(c, m, a), g);
    } else if !Reports(c, m, a) {
      StepKeeps(c, g, a);
      NoReport(c, g, a);
      BytesDecideNothing(c, m, g, a);
      FromRestored(c, Perform(c, m, a), Perform(c, g, a));
    }
  }

  /** A run whose clients write anywhere, up to the first damage report. */
  ghost predicate Lasts(c: Config, m: System, run: seq<Action>)
    decreases |run|
  {
    run == [] || (CanHappen(c, m, run[0]) && Tolerated(m, run[0]) && !Reports(c, m, run[0])
      && Lasts(c, Perform(c, m, run[0]), run[1..]))
  }

  ghost function Until(c: Config, m: System, run: seq<Action>): System
    requires Lasts(c, m, run)
    decreases |run|
  {
    if run == [] then m else Until(c, Perform(c, m, run[0]), run[1..])
  }

  lemma {:induction false} EveryRunButBytes(c: Config, m: System, run: seq<Action>)
    requires GoodButBytes(c, m) && Lasts(c, m, run)
    ensures GoodButBytes(c, Until(c, m, run))
    decreases |run|
  {
    hide GoodButBytes, CanHappen, Perform, Tolerated, Reports;
    if run != [] {
      StepKeepsButBytes(c, m, run[0]);
      EveryRunButBytes(c, Perform(c, m, run[0]), run[1..]);
    }
  }

  lemma SamePlaces(m: System, g: System, q: map<Item, seq<Slot>>)
    requires g == WithBytes(m, g.heap.mem)
    ensures forall s, p :: IsIn(m, q, s, p) <==> IsIn(g, q, s, p)
    ensures (forall s :: HasPlace(g, q, s)) ==> forall s :: HasPlace(m, q, s)
  {
    assert forall t :: PCOf(g, t) == PCOf(m, t);
    if forall s :: HasPlace(g, q, s) {
      forall s ensures HasPlace(m, q, s) {
        assert HasPlace(g, q, s);
        var p :| IsIn(g, q, s, p);
        assert IsIn(m, q, s, p);
      }
    }
  }

  /** Whatever clients overwrite, each slot is in exactly one place, and no two threads or
      clients hold one. */
  lemma OverwritesMoveNoSlot(c: Config, run: seq<Action>) returns (q: map<Item, seq<Slot>>)
    requires c.Valid() && Lasts(c, BOOT, run)
    ensures var m := Until(c, BOOT, run);
      && (forall it :: IsQueue(m.heap.link, ListOf(m.heap, it), QueueOf(q, it)) && Distinct(QueueOf(q, it)))
      && (forall it, s :: s in QueueOf(q, it) ==> s.item == it)
      && (forall s :: HasPlace(m, q, s))
      && (forall s, p1, p2 :: IsIn(m, q, s, p1) && IsIn(m, q, s, p2) ==> p1 == p2)
  {
    hide Good, Lasts, Until;
    BootGood(c);
    GoodIsGoodButBytes(c, BOOT);
    EveryRunButBytes(c, BOOT, run);
    var m := Until(c, BOOT, run);
    var g := Restored(c, m);
    q := PlacesApart(c, g);
    SamePlaces(m, g, q);
  }

  // ------------------------------------------------------------ calls left alone

  lemma MallocHeapBytes(c: Config, h: Heap, mem: map<nat, int>, it: Item, useBump: bool, low: bool)
    ensures var g := h.(mem := mem);
      && MallocSlot(g, it, useBump) == MallocSlot(h, it, useBump)
      && MallocHeap(c, g, it, useBump, low)
           == MallocHeap(c, h, it, useBump, low).(mem := MallocHeap(c, g, it, useBump, low).mem)
  {
    hide RemoveDLLHead, PageAligned, CanaryAddr;
  }

  lemma MallocStillQuiet(c: Config, m: System, t: Tid, size: nat, random: nat, low: bool, it: Item)
    requires GoodButBytes(c, m) && Quiet(m) && Enabled(c, m, CallMalloc(t, size, random))
    requires it.thread == m.threads.running[t] && it.bag == BagFor(size) && it.setItem == random % SET_SIZE
    ensures var useBump := random % RANDOMIZER == 0;
      var s := MallocSlot(m.heap, it, useBump);
      var m' := At(m, t, Idle, map[], MallocHeap(c, m.heap, it, useBump, low), m.live + {s});
      GoodButBytes(c, m') && Quiet(m') && s !in m.live && s.item == it && (Good(c, m) ==> Good(c, m'))
  {
    hide Good, MallocHeap, MallocSlot;
    var g := Restored(c, m);
    var useBump := random % RANDOMIZER == 0;
    MallocHeapBytes(c, m.heap, g.heap.mem, it, useBump, low);
    var s := MallocSlot(m.heap, it, useBump);
    MallocQuietly(c, g, t, size, random, low, it);
    var g' := At(g, t, Idle, map[], MallocHeap(c, g.heap, it, useBump, low), g.live + {s});
    var m' := At(m, t, Idle, map[], MallocHeap(c, m.heap, it, useBump, low), m.live + {s});
    assert g' == WithBytes(m', g'.heap.mem);
    FromRestored(c, m', g');
    QuietAfter(m, t, MallocHeap(c, m.heap, it, useBump, low), m.live + {s});
    if Good(c, m) { MallocQuietly(c, m, t, size, random, low, it); }
  }

  lemma FreeStillQuiet(c: Config, m: System, t: Tid, s: Slot)
    requires GoodButBytes(c, m) && Quiet(m) && Enabled(c, m, CallFree(t, s)) && s in m.live
    ensures var m' := At(m, t, Idle, map[], PutTail(m.heap, s), m.live - {s});
      GoodButBytes(c, m') && Quiet(m') && (Good(c, m) ==> Good(c, m'))
  {
    hide Good;
    var g := Restored(c, m);
    FreeQuietly(c, g, t, s);
    var g' := At(g, t, Idle, map[], PutTail(g.heap, s), g.live - {s});
    var m' := At(m, t, Idle, map[], PutTail(m.heap, s), m.live - {s});
    assert g' == WithBytes(m', g'.heap.mem);
    FromRestored(c, m', g');
    QuietAfter(m, t, PutTail(m.heap, s), m.live - {s});
    if Good(c, m) { FreeQuietly(c, m, t, s); }
  }
}
