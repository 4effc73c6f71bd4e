/** The heap as its clients see it: an allocator over live address ranges, of which every run
    of the machine is a run. */
module Refinement {
  import opened Arithmetic
  import opened Layout
  import opened Slots
  import opened Threads
  import opened Machine

  /** Start and number of usable bytes of each live object. */
  type Ranges = set<(nat, nat)>

  /** What passes between the clients and the allocator. */
  datatype Call = Returned(request: nat, addr: nat, usable: nat) | Freed(addr: nat, usable: nat)

  /** An allocation returns room for the request apart from every live object; what is freed
      is live. Only the request that overflows `size_t` may get less than it asked for. */
  ghost predicate Allowed(live: Ranges, call: Call) {
    match call
    case Returned(request, addr, usable) =>
      && 0 < usable && (request + 1 < SIZE_LIMIT ==> request <= usable)
      && forall r <- live :: Disjoint(addr, usable, r.0, r.1)
    case Freed(addr, usable) => (addr, usable) in live
  }

  function Update(live: Ranges, call: Call): Ranges {
    match call
    case Returned(_, addr, usable) => live + {(addr, usable)}
    case Freed(addr, usable) => live - {(addr, usable)}
  }

  ghost predicate AllowedAll(live: Ranges, calls: seq<Call>)
    decreases |calls|
  {
    calls == [] || (Allowed(live, calls[0]) && AllowedAll(Update(live, calls[0]), calls[1..]))
  }

  function UpdateAll(live: Ranges, calls: seq<Call>): Ranges
    decreases |calls|
  {
    if calls == [] then live else UpdateAll(Update(live, calls[0]), calls[1..])
  }

  // ------------------------------------------------------------ what a run looks like

  function Usable(s: Slot): nat { ClassSize(s.item.bag) - 1 }

  ghost function RangeOf(c: Config, s: Slot): (nat, nat) { (UserAddr(c, s), Usable(s)) }

  ghost function RangesOf(c: Config, m: System): Ranges { set s | s in m.live :: RangeOf(c, s) }

  /** A free is seen when the sentinel test accepts it, an allocation when it returns. */
  ghost function Seen(c: Config, m: System, a: Action): seq<Call> {
    match a
    case CallFree(_, s) => if ObjectFree(m.heap, s) then [] else [Freed(UserAddr(c, s), Usable(s))]
    case Continue(t, _) =>
      (match PCOf(m, t)
       case Malloc(size, _, Sealed(s)) => [Returned(size, UserAddr(c, s), Usable(s))]
       case _ => [])
    case _ => []
  }

  ghost function Trace(c: Config, m: System, run: seq<Action>): seq<Call>
    requires Possible(c, m, run)
    decreases |run|
  {
    if run == [] then [] else Seen(c, m, run[0]) + Trace(c, Perform(c, m, run[0]), run[1..])
  }

  lemma LiveRange(c: Config, m: System, s: Slot, r: Slot)
    requires Good(c, m) && s in m.live && r in m.live && r != s
    ensures RangeOf(c, r) != RangeOf(c, s)
  {
    var P := PlacesOf(c, m);
    assert PlaceOf(P, s) == Live && PlaceOf(P, r) == Live;
    SlotsDisjoint(c, s, r);
  }

  lemma FreeSeen(c: Config, m: System, t: Tid, s: Slot)
    requires Good(c, m) && Enabled(c, m, CallFree(t, s))
    ensures AllowedAll(RangesOf(c, m), Seen(c, m, CallFree(t, s)))
    ensures RangesOf(c, Perform(c, m, CallFree(t, s))) == UpdateAll(RangesOf(c, m), Seen(c, m, CallFree(t, s)))
  {
    hide Good;
    FreeAcceptsExactlyLive(c, m, t, s);
    var live, m' := RangesOf(c, m), Perform(c, m, CallFree(t, s));
    if s in m.live {
      assert RangeOf(c, s) in live;
      assert AllowedAll(live - {RangeOf(c, s)}, []);
      forall r | r in m.live && r != s ensures RangeOf(c, r) != RangeOf(c, s) { LiveRange(c, m, s, r); }
      forall p ensures p in RangesOf(c, m') <==> p in live - {RangeOf(c, s)} {
        if p in live - {RangeOf(c, s)} {
          var r :| r in m.live && RangeOf(c, r) == p;
          assert r in m'.live;
        }
      }
    }
  }

  lemma ReturnSeen(c: Config, m: System, t: Tid, guard: bool)
    requires Good(c, m) && Enabled(c, m, Continue(t, guard)) && PCOf(m, t).Malloc? && PCOf(m, t).stage.Sealed?
    ensures AllowedAll(RangesOf(c, m), Seen(c, m, Continue(t, guard)))
    ensures RangesOf(c, Perform(c, m, Continue(t, guard)))
      == UpdateAll(RangesOf(c, m), Seen(c, m, Continue(t, guard)))
  {
    hide Good;
    var size, s, live := PCOf(m, t).size, PCOf(m, t).stage.got, RangesOf(c, m);
    HandedOutSafely(c, m, t);
    ContinueLive(c, m, t, guard);
    assert ClassSize(s.item.bag) >= 2 by { Pow2Monotone(1, MIN_BLOCK_BITS + s.item.bag); }
    forall p | p in live ensures Disjoint(UserAddr(c, s), Usable(s), p.0, p.1) {
      var r :| r in m.live && RangeOf(c, r) == p;
    }
    var call := Returned(size, UserAddr(c, s), Usable(s));
    assert Allowed(live, call) && AllowedAll(Update(live, call), []);
    var m' := Perform(c, m, Continue(t, guard));
    forall p ensures p in RangesOf(c, m') <==> p in live + {RangeOf(c, s)} {
      if p in live {
        var r :| r in m.live && RangeOf(c, r) == p;
        assert r in m'.live;
      }
      assert s in m'.live;
    }
  }

  /** Every step of the machine is what the clients see of it, or nothing. */
  lemma StepProjects(c: Config, m: System, a: Action)
    requires Good(c, m) && Enabled(c, m, a)
    ensures AllowedAll(RangesOf(c, m), Seen(c, m, a))
    ensures RangesOf(c, Perform(c, m, a)) == UpdateAll(RangesOf(c, m), Seen(c, m, a))
  {
    hide Good;
    match a {
      case CallFree(t, s) => FreeSeen(c, m, t, s);
      case Continue(t, guard) =>
        if PCOf(m, t).Malloc? && PCOf(m, t).stage.Sealed? {
          ReturnSeen(c, m, t, guard);
        } else {
          ContinueLive(c, m, t, guard);
        }
      case _ =>
    }
  }

  lemma {:induction false} Joined(live: Ranges, xs: seq<Call>, ys: seq<Call>)
    requires AllowedAll(live, xs) && AllowedAll(UpdateAll(live, xs), ys)
    ensures AllowedAll(live, xs + ys) && UpdateAll(live, xs + ys) == UpdateAll(UpdateAll(live, xs), ys)
    decreases |xs|
  {
    if xs == [] {
      assert xs + ys == ys;
    } else {
      Joined(Update(live, xs[0]), xs[1..], ys);
      assert (xs + ys)[1..] == xs[1..] + ys;
    }
  }

  lemma {:induction false} RunProjects(c: Config, m: System, run: seq<Action>)
    requires Good(c, m) && Possible(c, m, run)
    ensures AllowedAll(RangesOf(c, m), Trace(c, m, run))
    ensures RangesOf(c, After(c, m, run)) == UpdateAll(RangesOf(c, m), Trace(c, m, run))
    decreases |run|
  {
    hide Good, CanHappen, Promised, Perform, Seen, Allowed, Update, RangesOf;
    if run != [] {
      StepKeeps(c, m, run[0]);
      StepProjects(c, m, run[0]);
      var m' := Perform(c, m, run[0]);
      RunProjects(c, m', run[1..]);
      Joined(RangesOf(c, m), Seen(c, m, run[0]), Trace(c, m', run[1..]));
    }
  }

  /** Every run of any number of threads, in any order, is a run of the client's allocator
      that starts with nothing live and ends with the live objects of the machine. */
  lemma EveryRunProjects(c: Config, run: seq<Action>)
    requires c.Valid() && Possible(c, BOOT, run)
    ensures AllowedAll({}, Trace(c, BOOT, run))
    ensures UpdateAll({}, Trace(c, BOOT, run)) == RangesOf(c, After(c, BOOT, run))
  {
    BootGood(c);
    RunProjects(c, BOOT, run);
    assert RangesOf(c, BOOT) == {};
  }
}
