/** Thread indices, as handed out and taken back by `xthread`. */
module Threads {
  import opened Options
  import opened Counting

  const MAX_ALIVE_THREADS: nat := 128

  type Tid = nat

  /** The fields of `xthread` (`alive`, `next`, `available`, `xmap`), together with what
      really happens to threads: indices reserved for a thread that does not exist yet
      (`pending`), the indices of the threads that exist (`running`), the `_xmap` entries
      their creators still have to make (`entering`), and the indices of the threads that
      were joined but not yet given back (`joined`). */
  datatype Table = Table(
    alive: int,              // _aliveThreads
    next: nat,               // _threadIndex
    available: seq<bool>,    // _threads[i].available
    xmap: map<Tid, nat>,     // _xmap
    pending: set<nat>,
    running: map<Tid, nat>,
    entering: multiset<(Tid, nat)>,
    joined: map<nat, Tid>)
  {
    ghost predicate Shape() {
      |available| == MAX_ALIVE_THREADS && next <= MAX_ALIVE_THREADS && Bounded()
    }

    ghost predicate Bounded() {
      && (forall i <- pending :: i < MAX_ALIVE_THREADS)
      && (forall p <- entering :: p.1 < MAX_ALIVE_THREADS)
      && (forall a <- xmap :: xmap[a] < MAX_ALIVE_THREADS)
    }
  }

  const INITIAL: Table :=
    Table(0, 0, seq(MAX_ALIVE_THREADS, _ => true), map[], {}, map[], multiset{}, map[])

  /** The first available index in `[lo, hi)`: the scan of `allocThreadIndex`. */
  function Scan(available: seq<bool>, lo: int, hi: int): (r: Option<nat>)
    requires 0 <= lo <= hi <= |available|
    ensures r.Some? ==> lo <= r.value < hi && available[r.value]
    decreases hi - lo
  {
    if lo >= hi then None
    else if available[lo] then Some(lo)
    else Scan(available, lo + 1, hi)
  }

  /** The index `allocThreadIndex` picks; the scan includes `_threadIndex` itself. */
  function PickIndex(t: Table): (r: Option<nat>)
    requires |t.available| == MAX_ALIVE_THREADS && t.next <= MAX_ALIVE_THREADS && t.alive < MAX_ALIVE_THREADS
    ensures r.Some? ==> r.value < MAX_ALIVE_THREADS
  {
    if t.alive == t.next then Some(t.next)
    else Scan(t.available, 0, if t.next < MAX_ALIVE_THREADS then t.next + 1 else t.next)
  }

  /** The two locked sections of `thread_create` with `pthread_create` between them, and
      `pthread_join` with the locked section of `thread_join` behind it. Events of different
      threads may come in any order. */
  datatype Event =
    | Reserve                       // allocThreadIndex
    | Start(tid: Tid, index: nat)   // pthread_create: the thread runs from here on
    | Enter(tid: Tid, index: nat)   // insertIfAbsent, by the creator
    | End(tid: Tid)                 // pthread_join returns: the thread is gone
    | Release(tid: Tid, index: nat) // the joiner gives back what _xmap says

  /** What the program and the operating system guarantee about an event: there is room for
      another thread, `pthread_t` values of existing threads differ, and a thread is joined
      once, after it was created. */
  predicate Legal(t: Table, e: Event) {
    match e
    case Reserve => t.alive < MAX_ALIVE_THREADS
    case Start(tid, index) => index in t.pending && tid !in t.running
    case Enter(tid, index) => (tid, index) in t.entering
    case End(tid) => tid in t.running
    case Release(tid, index) => index in t.joined && t.joined[index] == tid
  }

  ghost function Apply(t: Table, e: Event): (t': Table)
    requires t.Shape() && Legal(t, e)
    ensures t'.Shape()
  {
    match e
    case Reserve =>
      (match PickIndex(t)
       case None => t.(alive := t.alive + 1)
       case Some(i) =>
         t.(alive := t.alive + 1, available := t.available[i := false], pending := t.pending + {i},
            next := if t.alive == t.next then t.next + 1 else t.next))
    case Start(tid, index) =>
      t.(pending := t.pending - {index}, running := t.running[tid := index],
         entering := t.entering + multiset{(tid, index)})
    case Enter(tid, index) =>
      t.(xmap := if tid in t.xmap then t.xmap else t.xmap[tid := index],
         entering := t.entering - multiset{(tid, index)})
    case End(tid) =>
      t.(running := t.running - {tid}, joined := t.joined[t.running[tid] := tid])
    case Release(tid, index) =>
      t.(available := if tid in t.xmap then t.available[t.xmap[tid] := true] else t.available,
         alive := t.alive - 1, joined := t.joined - {index})
  }

  /** When an index is given back, `_xmap` has the joined `pthread_t` value with that index:
      the look-up of `thread_join` succeeds and finds the right thread. */
  predicate Known(t: Table, e: Event) {
    e.Release? ==> e.tid in t.xmap && t.xmap[e.tid] == e.index
  }

  // ------------------------------------------------------------ the invariant

  ghost function Unavailable(t: Table): set<nat>
    requires t.Shape()
  {
    set i: nat | i < MAX_ALIVE_THREADS && !t.available[i]
  }

  ghost predicate Injective(m: map<Tid, nat>) {
    forall a, b :: a in m && b in m && m[a] == m[b] ==> a == b
  }

  /** Someone has the index. */
  ghost predicate InUse(t: Table, i: nat) {
    i in t.pending || i in t.running.Values || i in t.joined
  }

  /** Indices in use are exactly the unavailable ones, each used once, all below
      `_threadIndex`, and `_aliveThreads` counts them. Nothing is said of `_xmap`. */
  ghost predicate Consistent(t: Table) {
    && t.Shape()
    && (forall i: nat :: t.next <= i < MAX_ALIVE_THREADS ==> t.available[i])
    && t.alive == |Unavailable(t)|
    && Injective(t.running)
    && (forall a <- t.running :: t.running[a] !in t.pending && t.running[a] !in t.joined)
    && (forall i <- t.pending :: i !in t.joined)
    && (forall i: nat :: i in Unavailable(t) <==> InUse(t, i))
  }

  lemma {:induction false} ScanFinds(available: seq<bool>, lo: int, hi: int)
    requires 0 <= lo <= hi <= |available|
    ensures forall i :: lo <= i < hi && available[i] ==>
      Scan(available, lo, hi).Some? && Scan(available, lo, hi).value <= i
    decreases hi - lo
  {
    if lo < hi && !available[lo] { ScanFinds(available, lo + 1, hi); }
  }

  lemma {:induction false} ScanIsLeast(available: seq<bool>, lo: int, hi: int)
    requires 0 <= lo <= hi <= |available| && Scan(available, lo, hi).Some?
    ensures forall i :: lo <= i < Scan(available, lo, hi).value ==> !available[i]
    decreases hi - lo
  {
    if !available[lo] { ScanIsLeast(available, lo + 1, hi); }
  }

  /** While an index is free for reuse, the least one is taken. */
  lemma PickIsLeast(t: Table)
    requires |t.available| == MAX_ALIVE_THREADS && t.next <= MAX_ALIVE_THREADS && t.alive < MAX_ALIVE_THREADS
    requires t.alive != t.next && PickIndex(t).Some?
    ensures forall i :: 0 <= i < PickIndex(t).value ==> !t.available[i]
  {
    ScanIsLeast(t.available, 0, if t.next < MAX_ALIVE_THREADS then t.next + 1 else t.next);
  }

  /** Pigeonhole: with fewer alive threads than indices ever used, the scan finds a free
      index strictly below `_threadIndex`; otherwise `_threadIndex` itself is fresh. */
  lemma PickIndexIsFree(t: Table)
    requires Consistent(t) && t.alive < MAX_ALIVE_THREADS
    ensures t.alive <= t.next
    ensures PickIndex(t).Some? && PickIndex(t).value < MAX_ALIVE_THREADS && t.available[PickIndex(t).value]
    ensures !InUse(t, PickIndex(t).value)
    ensures if t.alive < t.next then PickIndex(t).value < t.next else PickIndex(t).value == t.next
  {
    hide Table.Bounded, InUse, Injective;
    var all := Below(t.next);
    SubsetSize(Unavailable(t), all);
    if t.alive < t.next {
      var i :| i in all - Unavailable(t);
      ScanFinds(t.available, 0, if t.next < MAX_ALIVE_THREADS then t.next + 1 else t.next);
    }
  }

  lemma ReserveIs(t: Table, i: nat)
    requires t.Shape() && Legal(t, Reserve) && PickIndex(t) == Some(i) && !InUse(t, i)
    ensures i !in t.joined && forall a <- t.running :: t.running[a] != i
    ensures Apply(t, Reserve) ==
      t.(alive := t.alive + 1, available := t.available[i := false], pending := t.pending + {i},
         next := if t.alive == t.next then t.next + 1 else t.next)
    ensures forall j: nat :: InUse(Apply(t, Reserve), j) <==> InUse(t, j) || j == i
  {
    hide Table.Bounded, PickIndex;
  }

  lemma ReserveKeeps(t: Table)
    requires Consistent(t) && Legal(t, Reserve)
    ensures Consistent(Apply(t, Reserve))
    ensures Apply(t, Reserve).next == (if t.alive + 1 > t.next then t.alive + 1 else t.next)
    ensures Apply(t, Reserve).alive == t.alive + 1
  {
    hide Table.Bounded, PickIndex, Apply, InUse;
    PickIndexIsFree(t);
    var i, t' := PickIndex(t).value, Apply(t, Reserve);
    ReserveIs(t, i);
    assert i !in Unavailable(t) && Unavailable(t') == Unavailable(t) + {i};
  }

  /** The index moves from the reserved ones to the new thread. */
  lemma StartKeeps(t: Table, tid: Tid, index: nat)
    requires Consistent(t) && Legal(t, Start(tid, index))
    ensures Consistent(Apply(t, Start(tid, index)))
  {
    var t' := Apply(t, Start(tid, index));
    assert Unavailable(t') == Unavailable(t);
    assert t'.running[tid] == index;
    forall i: nat ensures InUse(t', i) <==> InUse(t, i) {
      if i in t.running.Values {
        var a :| a in t.running && t.running[a] == i;
        assert t'.running[a] == i;
      }
    }
  }

  /** The index moves from the thread that has ended to its joiner. */
  lemma EndKeeps(t: Table, tid: Tid)
    requires Consistent(t) && Legal(t, End(tid))
    ensures Consistent(Apply(t, End(tid)))
  {
    var t', i := Apply(t, End(tid)), t.running[tid];
    assert Unavailable(t') == Unavailable(t);
    assert i in t.running.Values;
    forall j: nat ensures InUse(t', j) <==> InUse(t, j) {
      if j in t.running.Values && j != i {
        var a :| a in t.running && t.running[a] == j;
        assert t'.running[a] == j;
      }
    }
  }

  /** A join keeps the table consistent exactly when `_xmap` knows the joined thread under
      its own index by then. If not, the index is lost, or another thread's is given away. */
  lemma ReleaseKeepsExactly(t: Table, tid: Tid, index: nat)
    requires Consistent(t) && Legal(t, Release(tid, index))
    ensures Consistent(Apply(t, Release(tid, index))) <==> Known(t, Release(tid, index))
    ensures Apply(t, Release(tid, index)).alive == t.alive - 1
  {
    var t' := Apply(t, Release(tid, index));
    assert InUse(t, index);
    if Known(t, Release(tid, index)) {
      assert Unavailable(t') == Unavailable(t) - {index};
      assert forall i: nat :: InUse(t', i) <==> InUse(t, i) && i != index;
    } else {
      assert index in Unavailable(t') && !InUse(t', index);
    }
  }

  lemma PickBound(t: Table)
    requires Consistent(t)
    ensures t.alive <= t.next
  {
    SubsetSize(Unavailable(t), Below(t.next));
  }

  /** Every event keeps the table consistent, except a join of a thread not known by its index. */
  lemma EventKeepsExactly(t: Table, e: Event)
    requires Consistent(t) && Legal(t, e)
    ensures Consistent(Apply(t, e)) <==> Known(t, e)
    ensures Known(t, e) ==> (Apply(t, e).next == if Apply(t, e).alive > t.next then Apply(t, e).alive else t.next)
  {
    PickBound(t);
    match e {
      case Reserve => ReserveKeeps(t);
      case Start(tid, index) => StartKeeps(t, tid, index);
      case Enter(_, _) => assert Unavailable(Apply(t, e)) == Unavailable(t);
      case End(tid) => EndKeeps(t, tid);
      case Release(tid, index) => ReleaseKeepsExactly(t, tid, index);
    }
  }

  /** An entry makes its thread known unless the `pthread_t` value already stands for another
      index, and no event ever changes an entry. */
  lemma EntriesStay(t: Table, e: Event, tid: Tid)
    requires t.Shape() && Legal(t, e)
    ensures tid in t.xmap ==> tid in Apply(t, e).xmap && Apply(t, e).xmap[tid] == t.xmap[tid]
    ensures tid !in t.xmap ==> (tid in Apply(t, e).xmap <==> e.Enter? && e.tid == tid)
    ensures e.Enter? ==> (Apply(t, e).xmap[e.tid] == e.index <==> (e.tid in t.xmap ==> t.xmap[e.tid] == e.index))
  {
  }

  // ------------------------------------------------------------ histories

  ghost predicate LegalHistory(t: Table, es: seq<Event>)
    requires t.Shape()
    decreases |es|
  {
    es == [] || (Legal(t, es[0]) && LegalHistory(Apply(t, es[0]), es[1..]))
  }

  ghost function Run(t: Table, es: seq<Event>): (t': Table)
    requires t.Shape() && LegalHistory(t, es)
    ensures t'.Shape()
    decreases |es|
  {
    if es == [] then t else Run(Apply(t, es[0]), es[1..])
  }

  /** Every joined thread is known when its index is given back. */
  ghost predicate EachKnown(t: Table, es: seq<Event>)
    requires t.Shape() && LegalHistory(t, es)
    decreases |es|
  {
    es == [] || (Known(t, es[0]) && EachKnown(Apply(t, es[0]), es[1..]))
  }

  ghost predicate StaysConsistent(t: Table, es: seq<Event>)
    requires t.Shape() && LegalHistory(t, es)
    decreases |es|
  {
    Consistent(t) && (es == [] || StaysConsistent(Apply(t, es[0]), es[1..]))
  }

  /** The largest number of threads counted alive at any point of a history. */
  ghost function Peak(t: Table, es: seq<Event>): (n: int)
    requires t.Shape() && LegalHistory(t, es)
    ensures n >= t.alive
    decreases |es|
  {
    if es == [] then t.alive
    else
      var later := Peak(Apply(t, es[0]), es[1..]);
      if later > t.alive then later else t.alive
  }

  lemma NotConsistentFrom(t: Table, es: seq<Event>)
    requires t.Shape() && LegalHistory(t, es) && !Consistent(t)
    ensures !StaysConsistent(t, es)
  {
  }

  lemma {:induction false} HistoryKeepsExactly(t: Table, es: seq<Event>)
    requires Consistent(t) && LegalHistory(t, es)
    ensures StaysConsistent(t, es) <==> EachKnown(t, es)
    ensures EachKnown(t, es) ==> Consistent(Run(t, es))
    ensures EachKnown(t, es) ==> (Run(t, es).next == if Peak(t, es) > t.next then Peak(t, es) else t.next)
    decreases |es|
  {
    hide Unavailable, InUse, Injective, Table.Bounded, Apply, Legal, Known;
    PickBound(t);
    if es != [] {
      EventKeepsExactly(t, es[0]);
      if Known(t, es[0]) {
        HistoryKeepsExactly(Apply(t, es[0]), es[1..]);
      } else {
        NotConsistentFrom(Apply(t, es[0]), es[1..]);
      }
    }
  }

  lemma StartsConsistent()
    ensures Consistent(INITIAL)
  {
    assert Unavailable(INITIAL) == {};
  }

  /** Over every interleaving of creations and joins from start-up, the table is consistent
      throughout exactly when every joined thread is known. Then no two threads share an
      index, and `_threadIndex` is the peak number of threads counted alive at once. */
  lemma EveryHistory(es: seq<Event>)
    requires LegalHistory(INITIAL, es)
    ensures StaysConsistent(INITIAL, es) <==> EachKnown(INITIAL, es)
    ensures EachKnown(INITIAL, es) ==>
      Consistent(Run(INITIAL, es)) && Injective(Run(INITIAL, es).running) && Run(INITIAL, es).next == Peak(INITIAL, es)
  {
    StartsConsistent();
    HistoryKeepsExactly(INITIAL, es);
  }

  // ------------------------------------------------------------ ids that fix indices

  /** With `CUSTOMIZED_STACK` a thread runs on the stack of its index, and its `pthread_t`
      value, an address in that stack, is used for no other index: `fix` tells which. */
  ghost predicate IdsFix(es: seq<Event>, fix: Tid -> nat) {
    forall e <- es :: e.Start? ==> e.index == fix(e.tid)
  }

  ghost predicate FixedEntries(t: Table, fix: Tid -> nat) {
    (forall a <- t.xmap :: t.xmap[a] == fix(a)) && (forall p <- t.entering :: p.1 == fix(p.0))
  }

  ghost predicate FixedIndices(t: Table, fix: Tid -> nat) {
    (forall a <- t.running :: t.running[a] == fix(a)) && (forall i <- t.joined :: fix(t.joined[i]) == i)
  }

  ghost predicate Fixed(t: Table, fix: Tid -> nat) {
    FixedEntries(t, fix) && FixedIndices(t, fix)
  }

  /** The look-up of `thread_join` never fails. */
  ghost predicate EachFound(t: Table, es: seq<Event>)
    requires t.Shape() && LegalHistory(t, es)
    decreases |es|
  {
    es == [] ||
    ((es[0].Release? ==> es[0].tid in t.xmap) && EachFound(Apply(t, es[0]), es[1..]))
  }

  lemma EntriesStayFixed(t: Table, e: Event, fix: Tid -> nat)
    requires t.Shape() && Legal(t, e) && FixedEntries(t, fix) && (e.Start? ==> e.index == fix(e.tid))
    ensures FixedEntries(Apply(t, e), fix)
  {
    hide Table.Shape, PickIndex;
  }

  lemma IndicesStayFixed(t: Table, e: Event, fix: Tid -> nat)
    requires t.Shape() && Legal(t, e) && FixedIndices(t, fix) && (e.Start? ==> e.index == fix(e.tid))
    ensures FixedIndices(Apply(t, e), fix)
  {
    hide Table.Shape, PickIndex;
  }

  /** Then what the look-up finds is right, so a join need only come after the entry. */
  lemma {:induction false} FixedIdsKnown(t: Table, es: seq<Event>, fix: Tid -> nat)
    requires t.Shape() && LegalHistory(t, es) && Fixed(t, fix) && IdsFix(es, fix)
    ensures EachKnown(t, es) <==> EachFound(t, es)
    decreases |es|
  {
    hide Table.Shape, Apply;
    if es != [] {
      assert es[0] in es && forall e <- es[1..] :: e in es;
      EntriesStayFixed(t, es[0], fix);
      IndicesStayFixed(t, es[0], fix);
      FixedIdsKnown(Apply(t, es[0]), es[1..], fix);
    }
  }

  /** With customized stacks the table stays consistent exactly when no join comes before the
      `_xmap` entry of the thread it joins. */
  lemma CustomizedStacks(es: seq<Event>, fix: Tid -> nat)
    requires LegalHistory(INITIAL, es) && IdsFix(es, fix)
    ensures StaysConsistent(INITIAL, es) <==> EachFound(INITIAL, es)
  {
    EveryHistory(es);
    FixedIdsKnown(INITIAL, es, fix);
  }

  // ------------------------------------------------------------ histories that fail

  lemma {:induction false} Append(t: Table, es: seq<Event>, fs: seq<Event>)
    requires t.Shape()
    ensures LegalHistory(t, es + fs) <==> LegalHistory(t, es) && LegalHistory(Run(t, es), fs)
    ensures LegalHistory(t, es + fs) ==> Run(t, es + fs) == Run(Run(t, es), fs)
    ensures LegalHistory(t, es + fs) ==> (EachKnown(t, es + fs) <==> EachKnown(t, es) && EachKnown(Run(t, es), fs))
    decreases |es|
  {
    hide Apply, Legal, Known, Table.Shape;
    if es == [] {
      assert es + fs == fs;
    } else {
      assert (es + fs)[1..] == es[1..] + fs && (es + fs)[0] == es[0];
      if Legal(t, es[0]) { Append(Apply(t, es[0]), es[1..], fs); }
    }
  }

  lemma Single(t: Table, e: Event)
    requires t.Shape()
    ensures LegalHistory(t, [e]) <==> Legal(t, e)
    ensures Legal(t, e) ==> Run(t, [e]) == Apply(t, e) && (EachKnown(t, [e]) <==> Known(t, e))
  {
    hide Apply, Legal, Known, Table.Shape;
    assert [e][1..] == [];
    if Legal(t, e) { assert LegalHistory(Apply(t, e), []); }
  }

  lemma OneMore(t: Table, es: seq<Event>, e: Event)
    requires t.Shape() && LegalHistory(t, es) && Legal(Run(t, es), e)
    ensures LegalHistory(t, es + [e]) && Run(t, es + [e]) == Apply(Run(t, es), e)
    ensures EachKnown(t, es + [e]) <==> EachKnown(t, es) && Known(Run(t, es), e)
  {
    hide Apply, Legal, Known, Table.Shape, LegalHistory, Run, EachKnown;
    Single(Run(t, es), e);
    Append(t, es, [e]);
  }

  /** The fields after a history that leaves nothing half done. */
  datatype Summary = Summary(alive: nat, next: nat, used: set<nat>, xmap: map<Tid, nat>, running: map<Tid, nat>)

  ghost predicate Shows(t: Table, v: Summary) {
    && t.Shape() && t == Table(v.alive, v.next, t.available, v.xmap, {}, v.running, multiset{}, map[])
    && forall i: nat :: i < MAX_ALIVE_THREADS ==> (t.available[i] <==> i !in v.used)
  }

  /** After history `es` the table is this; the indices in `used` are unavailable. */
  ghost predicate Leads(t0: Table, es: seq<Event>, v: Summary) {
    t0.Shape() && LegalHistory(t0, es) && Shows(Run(t0, es), v)
  }

  /** A fresh index, or else the lowest free one. */
  ghost predicate Picks(v: Summary, i: nat) {
    && v.alive <= v.next < MAX_ALIVE_THREADS && i <= v.next
    && if v.alive == v.next then i == v.next else i !in v.used && forall j: nat :: j < i ==> j in v.used
  }

  ghost function WithEntry(v: Summary, tid: Tid, i: nat): Summary {
    v.(next := if v.alive == v.next then v.next + 1 else v.next, used := v.used + {i},
       xmap := if tid in v.xmap then v.xmap else v.xmap[tid := i])
  }

  lemma ReserveNow(t: Table, v: Summary, i: nat)
    requires Shows(t, v) && Picks(v, i)
    ensures Legal(t, Reserve)
    ensures Apply(t, Reserve) ==
      Table(v.alive + 1, if v.alive == v.next then v.next + 1 else v.next, t.available[i := false], v.xmap, {i},
            v.running, multiset{}, map[])
  {
    hide Table.Bounded;
    ScanFinds(t.available, 0, t.next + 1);
    assert {} + {i} == {i};
  }

  lemma StartNow(t: Table, tid: Tid, i: nat)
    requires t.Shape() && t.pending == {i} && t.entering == multiset{} && tid !in t.running
    ensures Legal(t, Start(tid, i))
    ensures Apply(t, Start(tid, i))
      == t.(pending := {}, running := t.running[tid := i], entering := multiset{(tid, i)})
  {
    hide Table.Bounded;
    assert {i} - {i} == {};
  }

  lemma EnterNow(t: Table, tid: Tid, i: nat)
    requires t.Shape() && t.entering == multiset{(tid, i)}
    ensures Legal(t, Enter(tid, i))
    ensures Apply(t, Enter(tid, i))
      == t.(xmap := if tid in t.xmap then t.xmap else t.xmap[tid := i], entering := multiset{})
  {
    hide Table.Bounded;
    assert multiset{(tid, i)} - multiset{(tid, i)} == multiset{};
  }

  lemma EndNow(t: Table, tid: Tid)
    requires t.Shape() && tid in t.running && t.joined == map[]
    ensures Legal(t, End(tid))
    ensures Apply(t, End(tid)) == t.(running := t.running - {tid}, joined := map[t.running[tid] := tid])
    ensures Legal(Apply(t, End(tid)), Release(tid, t.running[tid]))
    ensures Apply(Apply(t, End(tid)), Release(tid, t.running[tid])) ==
      t.(available := if tid in t.xmap then t.available[t.xmap[tid] := true] else t.available,
         alive := t.alive - 1, running := t.running - {tid})
  {
    assert map[t.running[tid] := tid] - {t.running[tid]} == map[];
  }

  lemma CreatedNow(t: Table, v: Summary, tid: Tid, i: nat)
    requires Shows(t, v) && Picks(v, i) && tid !in v.running
    ensures Legal(t, Reserve) && Legal(Apply(t, Reserve), Start(tid, i))
    ensures var t' := Apply(Apply(t, Reserve), Start(tid, i));
      Legal(t', Enter(tid, i)) && Shows(Apply(t', Enter(tid, i)),
        WithEntry(v, tid, i).(alive := v.alive + 1, running := v.running[tid := i]))
  {
    hide Table.Bounded, Apply, Legal;
    ReserveNow(t, v, i);
    StartNow(Apply(t, Reserve), tid, i);
    EnterNow(Apply(Apply(t, Reserve), Start(tid, i)), tid, i);
  }

  /** A creation that nothing disturbs. */
  lemma Created(t0: Table, es: seq<Event>, v: Summary, tid: Tid, i: nat)
    requires Leads(t0, es, v) && Picks(v, i) && tid !in v.running
    ensures Leads(t0, es + [Reserve, Start(tid, i), Enter(tid, i)],
      WithEntry(v, tid, i).(alive := v.alive + 1, running := v.running[tid := i]))
  {
    hide Shows, Table.Shape, Apply, Legal, LegalHistory, Run, Picks, WithEntry;
    assert Run(t0, es).Shape();
    CreatedNow(Run(t0, es), v, tid, i);
    OneMore(t0, es, Reserve);
    OneMore(t0, es + [Reserve], Start(tid, i));
    OneMore(t0, es + [Reserve] + [Start(tid, i)], Enter(tid, i));
    assert es + [Reserve] + [Start(tid, i)] + [Enter(tid, i)] == es + [Reserve, Start(tid, i), Enter(tid, i)];
  }

  lemma JoinedNow(t: Table, v: Summary, tid: Tid)
    requires Shows(t, v) && v.alive > 0 && tid in v.running && tid in v.xmap
    ensures Legal(t, End(tid)) && Legal(Apply(t, End(tid)), Release(tid, v.running[tid]))
    ensures Shows(Apply(Apply(t, End(tid)), Release(tid, v.running[tid])),
      v.(alive := v.alive - 1, used := v.used - {v.xmap[tid]}, running := v.running - {tid}))
  {
    hide Apply, Legal;
    EndNow(t, tid);
  }

  /** A join that nothing disturbs: whatever index `_xmap` has becomes available. */
  lemma Joined(t0: Table, es: seq<Event>, v: Summary, tid: Tid)
    requires Leads(t0, es, v) && v.alive > 0 && tid in v.running && tid in v.xmap
    ensures Leads(t0, es + [End(tid), Release(tid, v.running[tid])],
      v.(alive := v.alive - 1, used := v.used - {v.xmap[tid]}, running := v.running - {tid}))
  {
    hide Shows, Table.Shape, Apply, Legal, LegalHistory, Run;
    JoinedNow(Run(t0, es), v, tid);
    OneMore(t0, es, End(tid));
    OneMore(t0, es + [End(tid)], Release(tid, v.running[tid]));
    assert es + [End(tid)] + [Release(tid, v.running[tid])] == es + [End(tid), Release(tid, v.running[tid])];
  }

  lemma JoinedEarlyNow(t: Table, v: Summary, tid: Tid, i: nat)
    requires Shows(t, v) && Picks(v, i) && tid !in v.running && tid !in v.xmap
    ensures Legal(t, Reserve) && Legal(Apply(t, Reserve), Start(tid, i))
    ensures var t' := Apply(Apply(t, Reserve), Start(tid, i));
      Legal(t', End(tid)) && Legal(Apply(t', End(tid)), Release(tid, i)) && !Known(Apply(t', End(tid)), Release(tid, i))
    ensures var t' := Apply(Apply(Apply(Apply(t, Reserve), Start(tid, i)), End(tid)), Release(tid, i));
      Legal(t', Enter(tid, i)) && Shows(Apply(t', Enter(tid, i)), WithEntry(v, tid, i))
  {
    hide Table.Bounded, Apply, Legal;
    ReserveNow(t, v, i);
    StartNow(Apply(t, Reserve), tid, i);
    var t' := Apply(Apply(t, Reserve), Start(tid, i));
    EndNow(t', tid);
    assert v.running[tid := i] - {tid} == v.running;
    EnterNow(Apply(Apply(t', End(tid)), Release(tid, i)), tid, i);
  }

  /** A thread that is joined before its creator has entered it in `_xmap`: the look-up finds
      nothing, so the index stays unavailable for ever while `_aliveThreads` goes down. */
  lemma JoinedEarly(t0: Table, es: seq<Event>, v: Summary, tid: Tid, i: nat)
    requires Leads(t0, es, v) && Picks(v, i) && tid !in v.running && tid !in v.xmap
    ensures Leads(t0, es + [Reserve, Start(tid, i), End(tid), Release(tid, i), Enter(tid, i)], WithEntry(v, tid, i))
    ensures !EachKnown(t0, es + [Reserve, Start(tid, i), End(tid), Release(tid, i), Enter(tid, i)])
  {
    hide Shows, Table.Shape, Apply, Legal, Known, LegalHistory, Run, EachKnown, Picks, WithEntry;
    JoinedEarlyNow(Run(t0, es), v, tid, i);
    OneMore(t0, es, Reserve);
    OneMore(t0, es + [Reserve], Start(tid, i));
    OneMore(t0, es + [Reserve] + [Start(tid, i)], End(tid));
    OneMore(t0, es + [Reserve] + [Start(tid, i)] + [End(tid)], Release(tid, i));
    OneMore(t0, es + [Reserve] + [Start(tid, i)] + [End(tid)] + [Release(tid, i)], Enter(tid, i));
    assert es + [Reserve] + [Start(tid, i)] + [End(tid)] + [Release(tid, i)] + [Enter(tid, i)]
      == es + [Reserve, Start(tid, i), End(tid), Release(tid, i), Enter(tid, i)];
  }

  predicate IdsDiffer(es: seq<Event>) {
    forall i, j :: 0 <= i < j < |es| && es[i].Start? && es[j].Start? ==> es[i].tid != es[j].tid
  }

  lemma NothingYet()
    ensures Shows(INITIAL, Summary(0, 0, {}, map[], map[])) && Picks(Summary(0, 0, {}, map[], map[]), 0)
    ensures INITIAL.Shape() && LegalHistory(INITIAL, []) && Run(INITIAL, []) == INITIAL
  {
  }

  /** The history of `initialize`. */
  lemma JustMain() returns (es: seq<Event>)
    ensures es == [Reserve, Start(0, 0), Enter(0, 0)]
    ensures Leads(INITIAL, es, Summary(1, 1, {0}, map[0 := 0], map[0 := 0]))
  {
    NothingYet();
    Created(INITIAL, [], Summary(0, 0, {}, map[], map[]), 0, 0);
    es := [] + [Reserve, Start(0, 0), Enter(0, 0)];
  }

  /** With all `pthread_t` values different: thread 1 is joined early, then threads 2 and 3
      are created, and both run with index 2. */
  lemma EarlyJoinSharesAnIndex() returns (es: seq<Event>)
    ensures LegalHistory(INITIAL, es) && IdsDiffer(es)
    ensures Run(INITIAL, es).running == map[0 := 0, 2 := 2, 3 := 2] && !Injective(Run(INITIAL, es).running)
  {
    hide LegalHistory, Run, EachKnown;
    es := JustMain();
    JoinedEarly(INITIAL, es, Summary(1, 1, {0}, map[0 := 0], map[0 := 0]), 1, 1);
    es := es + [Reserve, Start(1, 1), End(1), Release(1, 1), Enter(1, 1)];
    assert Leads(INITIAL, es, Summary(1, 2, {0, 1}, map[0 := 0, 1 := 1], map[0 := 0]));
    Created(INITIAL, es, Summary(1, 2, {0, 1}, map[0 := 0, 1 := 1], map[0 := 0]), 2, 2);
    es := es + [Reserve, Start(2, 2), Enter(2, 2)];
    var v := Summary(2, 2, {0, 1, 2}, map[0 := 0, 1 := 1, 2 := 2], map[0 := 0, 2 := 2]);
    assert Leads(INITIAL, es, v);
    Created(INITIAL, es, v, 3, 2);
    es := es + [Reserve, Start(3, 2), Enter(3, 2)];
    var r := Run(INITIAL, es).running;
    assert r[2] == r[3];
  }

  /** The main thread, with index 0, creates threads 1 and 2 and joins them. */
  lemma TwoThreadsEnd() returns (es: seq<Event>)
    ensures Leads(INITIAL, es, Summary(1, 3, {0}, map[0 := 0, 1 := 1, 2 := 2], map[0 := 0]))
  {
    hide LegalHistory, Run;
    es := JustMain();
    Created(INITIAL, es, Summary(1, 1, {0}, map[0 := 0], map[0 := 0]), 1, 1);
    es := es + [Reserve, Start(1, 1), Enter(1, 1)];
    var x: map<Tid, nat> := map[0 := 0, 1 := 1];
    assert Leads(INITIAL, es, Summary(2, 2, {0, 1}, x, x));
    Created(INITIAL, es, Summary(2, 2, {0, 1}, x, x), 2, 2);
    es := es + [Reserve, Start(2, 2), Enter(2, 2)];
    x := map[0 := 0, 1 := 1, 2 := 2];
    assert Leads(INITIAL, es, Summary(3, 3, {0, 1, 2}, x, x));
    Joined(INITIAL, es, Summary(3, 3, {0, 1, 2}, x, x), 1);
    es := es + [End(1), Release(1, 1)];
    assert Leads(INITIAL, es, Summary(2, 3, {0, 2}, x, map[0 := 0, 2 := 2]));
    Joined(INITIAL, es, Summary(2, 3, {0, 2}, x, map[0 := 0, 2 := 2]), 2);
    es := es + [End(2), Release(2, 2)];
  }

  /** Their `pthread_t` values come back the other way round, and joining one of the new
      threads frees the index of the other: two running threads share an index. */
  lemma RecycledIdsShareAnIndex() returns (es: seq<Event>)
    ensures LegalHistory(INITIAL, es) && !Injective(Run(INITIAL, es).running)
  {
    hide LegalHistory, Run;
    var x: map<Tid, nat> := map[0 := 0, 1 := 1, 2 := 2];
    es := TwoThreadsEnd();
    Created(INITIAL, es, Summary(1, 3, {0}, x, map[0 := 0]), 2, 1);
    es := es + [Reserve, Start(2, 1), Enter(2, 1)];
    assert Leads(INITIAL, es, Summary(2, 3, {0, 1}, x, map[0 := 0, 2 := 1]));
    Created(INITIAL, es, Summary(2, 3, {0, 1}, x, map[0 := 0, 2 := 1]), 1, 2);
    es := es + [Reserve, Start(1, 2), Enter(1, 2)];
    assert Leads(INITIAL, es, Summary(3, 3, {0, 1, 2}, x, map[0 := 0, 2 := 1, 1 := 2]));
    Joined(INITIAL, es, Summary(3, 3, {0, 1, 2}, x, map[0 := 0, 2 := 1, 1 := 2]), 2);
    es := es + [End(2), Release(2, 1)];
    assert Leads(INITIAL, es, Summary(2, 3, {0, 1}, x, map[0 := 0, 1 := 2]));
    Created(INITIAL, es, Summary(2, 3, {0, 1}, x, map[0 := 0, 1 := 2]), 3, 2);
    es := es + [Reserve, Start(3, 2), Enter(3, 2)];
    var r := Run(INITIAL, es).running;
    assert r[1] == r[3];
  }

  // ------------------------------------------------------------ the xthread object

  /** The index the next reservation gets. */
  function NextIndex(t: Table): nat
    requires |t.available| == MAX_ALIVE_THREADS && t.next <= MAX_ALIVE_THREADS && t.alive < MAX_ALIVE_THREADS
  {
    var i := PickIndex(t);
    if i.Some? then i.value else 0
  }

  /** A creation, with what other threads do between its three parts. */
  function Creation(tid: Tid, index: nat, before: seq<Event>, after: seq<Event>): seq<Event> {
    [Reserve] + before + [Start(tid, index)] + after + [Enter(tid, index)]
  }

  lemma InitialCreation(self: Tid)
    ensures LegalHistory(INITIAL, Creation(self, 0, [], []))
    ensures Legal(INITIAL, Reserve) && Legal(Apply(INITIAL, Reserve), Start(self, 0))
    ensures var t := Apply(Apply(INITIAL, Reserve), Start(self, 0));
      Legal(t, Enter(self, 0)) && Run(INITIAL, Creation(self, 0, [], [])) == Apply(t, Enter(self, 0))
  {
    hide Shows, Table.Shape, Apply, Legal, Known, LegalHistory, Run, EachKnown, Picks, WithEntry;
    NothingYet();
    CreatedNow(INITIAL, Summary(0, 0, {}, map[], map[]), self, 0);
    assert [] + [Reserve] == [Reserve] && [Reserve] + [] == [Reserve];
    OneMore(INITIAL, [], Reserve);
    OneMore(INITIAL, [Reserve], Start(self, 0));
    OneMore(INITIAL, [Reserve] + [Start(self, 0)], Enter(self, 0));
    assert Creation(self, 0, [], []) == [Reserve] + [Start(self, 0)] + [Enter(self, 0)];
  }

  /** The parts of a creation, one after the other. */
  lemma CreationParts(t: Table, tid: Tid, i: nat, before: seq<Event>, after: seq<Event>)
    requires t.Shape() && LegalHistory(t, Creation(tid, i, before, after))
    requires EachKnown(t, Creation(tid, i, before, after))
    ensures Legal(t, Reserve) && LegalHistory(Apply(t, Reserve), before) && EachKnown(Apply(t, Reserve), before)
    ensures var t1 := Run(Apply(t, Reserve), before);
      && Legal(t1, Start(tid, i)) && LegalHistory(Apply(t1, Start(tid, i)), after)
      && EachKnown(Apply(t1, Start(tid, i)), after)
    ensures var t2 := Run(Apply(Run(Apply(t, Reserve), before), Start(tid, i)), after);
      Legal(t2, Enter(tid, i)) && Run(t, Creation(tid, i, before, after)) == Apply(t2, Enter(tid, i))
  {
    hide Legal, Known, Apply, LegalHistory, EachKnown, Run;
    var a, b, d := [Reserve], [Start(tid, i)], [Enter(tid, i)];
    Append(t, a + before + b + after, d);
    Append(t, a + before + b, after);
    Append(t, a + before, b);
    Append(t, a, before);
    Single(t, Reserve);
    Single(Run(t, a + before), Start(tid, i));
    Single(Run(t, a + before + b + after), Enter(tid, i));
  }

  lemma JoinParts(t: Table, tid: Tid, between: seq<Event>, index: nat)
    requires t.Shape() && LegalHistory(t, [End(tid)] + between + [Release(tid, index)])
    requires LegalHistory(t, [End(tid)] + between) && EachKnown(t, [End(tid)] + between)
    ensures Legal(t, End(tid)) && LegalHistory(Apply(t, End(tid)), between) && EachKnown(Apply(t, End(tid)), between)
    ensures var t' := Run(Apply(t, End(tid)), between);
      && Legal(t', Release(tid, index))
      && Run(t, [End(tid)] + between + [Release(tid, index)]) == Apply(t', Release(tid, index))
  {
    hide Legal, Known, Apply, LegalHistory, EachKnown, Run;
    Append(t, [End(tid)] + between, [Release(tid, index)]);
    Append(t, [End(tid)], between);
    Single(t, End(tid));
    Single(Run(t, [End(tid)] + between), Release(tid, index));
  }

  class XThread {
    var aliveThreads: int
    var threadIndex: nat

    const available: array<bool>

    var xmap: map<Tid, nat>
    ghost var pending: set<nat>
    ghost var running: map<Tid, nat>
    ghost var entering: multiset<(Tid, nat)>
    ghost var joined: map<nat, Tid>

    ghost function View(): Table
      reads this, available
    {
      Table(aliveThreads, threadIndex, available[..], xmap, pending, running, entering, joined)
    }

    /** `allocThreadIndex`. */
    method AllocThreadIndex() returns (index: nat)
      requires Consistent(View()) && aliveThreads < MAX_ALIVE_THREADS
      modifies this`aliveThreads, this`threadIndex, this`pending, available
      ensures Consistent(View()) && View() == Apply(old(View()), Reserve)
      ensures index == NextIndex(old(View())) && index in pending && !InUse(old(View()), index)
      ensures index < old(threadIndex) || (index == old(threadIndex) == old(aliveThreads))
      ensures old(aliveThreads) < old(threadIndex) ==>
        old(available[..])[index] && forall i :: 0 <= i < index ==> !old(available[..])[i]
    {
      hide Unavailable, InUse, Injective, Table.Bounded;
      ghost var t := View();
      PickIndexIsFree(t);
      if t.alive < t.next { PickIsLeast(t); }
      ReserveKeeps(t);
      if aliveThreads == threadIndex {
        aliveThreads := aliveThreads + 1;
        index := threadIndex;
        threadIndex := threadIndex + 1;
        available[index] := false;
      } else {
        aliveThreads := aliveThreads + 1;
        index := 0;
        ghost var stop := if t.next < MAX_ALIVE_THREADS then t.next + 1 else t.next;
        while index <= threadIndex
          invariant index < stop && Scan(t.available, index, stop) == PickIndex(t)
          decreases stop - index
        {
          if available[index] {
            available[index] := false;
            break;
          }
          index := index + 1;
        }
      }
      pending := pending + {index};
      assert View() == Apply(t, Reserve);
    }

    /** `pthread_create`: the new thread exists and runs. */
    ghost method StartThread(tid: Tid, tindex: nat)
      requires Consistent(View()) && Legal(View(), Start(tid, tindex))
      modifies this`pending, this`running, this`entering
      ensures Consistent(View()) && View() == Apply(old(View()), Start(tid, tindex))
    {
      StartKeeps(View(), tid, tindex);
      pending, running := pending - {tindex}, running[tid := tindex];
      entering := entering + multiset{(tid, tindex)};
    }

    /** The last locked section of `thread_create`: `insertIfAbsent`. The thread is known by
        its index from now on unless its `pthread_t` value has an entry for another index. */
    method EnterThread(tid: Tid, tindex: nat)
      requires Consistent(View()) && Legal(View(), Enter(tid, tindex))
      modifies this`xmap, this`entering
      ensures Consistent(View()) && View() == Apply(old(View()), Enter(tid, tindex))
      ensures tid in xmap && (xmap[tid] == tindex <==> (tid in old(xmap) ==> old(xmap)[tid] == tindex))
    {
      EventKeepsExactly(View(), Enter(tid, tindex));
      if tid !in xmap {
        xmap := xmap[tid := tindex];
      }
      entering := entering - multiset{(tid, tindex)};
    }

    /** `initialize`: the calling thread gets index 0 and is entered under it. */
    constructor Initialize(self: Tid)
      ensures Consistent(View()) && LegalHistory(INITIAL, Creation(self, 0, [], []))
      ensures View() == Run(INITIAL, Creation(self, 0, [], []))
      ensures running == xmap == map[self := 0] && entering == multiset{}
    {
      aliveThreads, threadIndex, xmap := 0, 0, map[];
      pending, running, entering, joined := {}, map[], multiset{}, map[];
      available := new bool[MAX_ALIVE_THREADS](_ => true);
      new;
      assert available[..] == INITIAL.available;
      StartsConsistent();
      var tindex := AllocThreadIndex();
      StartThread(self, tindex);
      EnterThread(self, tindex);
      InitialCreation(self);
    }

    /** `pthread_join` returns: the thread is gone, its index still taken. */
    ghost method EndThread(tid: Tid)
      requires Consistent(View()) && Legal(View(), End(tid))
      modifies this`running, this`joined
      ensures Consistent(View()) && View() == Apply(old(View()), End(tid))
    {
      EndKeeps(View(), tid);
      running, joined := running - {tid}, joined[running[tid] := tid];
    }

    /** The locked section of `thread_join`, for a thread that had index `index`. */
    method ReleaseIndex(tid: Tid, ghost index: nat)
      requires Consistent(View()) && Legal(View(), Release(tid, index))
      modifies this`aliveThreads, this`joined, available
      ensures View() == Apply(old(View()), Release(tid, index))
      ensures Consistent(View()) <==> Known(old(View()), Release(tid, index))
      ensures available[..] == if tid in xmap then old(available[..])[xmap[tid] := true] else old(available[..])
    {
      ReleaseKeepsExactly(View(), tid, index);
      if tid in xmap {
        var joinee := xmap[tid];
        available[joinee] := true;
      }
      aliveThreads := aliveThreads - 1;
      joined := joined - {index};
    }

    /** One event of another thread. */
    method Perform(e: Event)
      requires Consistent(View()) && Legal(View(), e) && Known(View(), e)
      modifies this, available
      ensures Consistent(View()) && View() == Apply(old(View()), e)
    {
      match e {
        case Reserve => var index := AllocThreadIndex();
        case Start(tid, index) => StartThread(tid, index);
        case Enter(tid, index) => EnterThread(tid, index);
        case End(tid) => EndThread(tid);
        case Release(tid, index) => ReleaseIndex(tid, index);
      }
    }

    /** What other threads do meanwhile. */
    method Others(es: seq<Event>)
      requires Consistent(View()) && LegalHistory(View(), es) && EachKnown(View(), es)
      modifies this, available
      ensures Consistent(View()) && View() == Run(old(View()), es)
      decreases |es|
    {
      hide Consistent, Legal, Known, Apply;
      if es != [] {
        Perform(es[0]);
        Others(es[1..]);
      }
    }

    /** `thread_create`, whatever other threads do before and after `pthread_create` chooses
        `tid`: the new thread gets an index nobody has. */
    method ThreadCreate(tid: Tid, before: seq<Event>, after: seq<Event>) returns (tindex: nat)
      requires Consistent(View()) && aliveThreads < MAX_ALIVE_THREADS
      requires LegalHistory(View(), Creation(tid, NextIndex(View()), before, after))
      requires EachKnown(View(), Creation(tid, NextIndex(View()), before, after))
      modifies this, available
      ensures tindex == NextIndex(old(View())) && !InUse(old(View()), tindex)
      ensures Consistent(View()) && View() == Run(old(View()), Creation(tid, tindex, before, after))
      ensures tid in xmap
    {
      hide Unavailable, InUse, Injective, Table.Bounded, Known, LegalHistory, EachKnown, Run, Apply;
      ghost var t, i := View(), NextIndex(View());
      CreationParts(t, tid, i, before, after);
      tindex := AllocThreadIndex();
      Others(before);
      StartThread(tid, tindex);
      Others(after);
      EnterThread(tid, tindex);
    }

    /** `thread_join`, whatever other threads do between the return of `pthread_join` and the
        locked section: the table stays consistent exactly when `_xmap` knows the thread then. */
    method ThreadJoin(tid: Tid, between: seq<Event>)
      requires Consistent(View()) && tid in running
      requires LegalHistory(View(), [End(tid)] + between + [Release(tid, running[tid])])
      requires LegalHistory(View(), [End(tid)] + between) && EachKnown(View(), [End(tid)] + between)
      modifies this, available
      ensures View() == Run(old(View()), [End(tid)] + between + [Release(tid, old(running)[tid])])
      ensures var i := old(running)[tid];
        Consistent(View()) <==> tid in xmap && xmap[tid] == i
    {
      hide Unavailable, InUse, Injective, Table.Bounded, Apply, LegalHistory, EachKnown, Run;
      ghost var index := running[tid];
      JoinParts(View(), tid, between, index);
      EndThread(tid);
      Others(between);
      ReleaseIndex(tid, index);
    }
  }
}
