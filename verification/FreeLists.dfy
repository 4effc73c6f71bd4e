/** The linked lists of `slist.h` and `dlist.h`: first as functions on a map of `next`
    fields, then as methods that relink node objects in place. */
module FreeLists {
  import opened Sequences

  /** A `next` field: null, `ALLOC_SENTINEL`, or the address of a node. */
  datatype Link<+N> = Null | Sentinel | To(node: N)

  /** The `next` field of every node; a node that was never written reads as null. */
  type Cells<!N(==)> = map<N, Link<N>>

  function Next<N(==)>(cells: Cells<N>, n: N): Link<N> {
    if n in cells then cells[n] else Null
  }

  /** `dlist_t`, the header of a first-in first-out list. */
  datatype DList<+N> = DList(next: Link<N>, prev: Link<N>)

  function InitDLL<N>(): DList<N> { DList(Null, Null) }

  predicate IsDLLEmpty<N>(d: DList<N>) { d.next.Null? }

  function InsertDLLTail<N(==)>(cells: Cells<N>, d: DList<N>, node: N): (Cells<N>, DList<N>) {
    var c := cells[node := Null];
    match d.prev
    case To(tail) => (c[tail := To(node)], d.(prev := To(node)))
    case _ => (c, DList(To(node), To(node)))
  }

  function RemoveDLLHead<N(==)>(cells: Cells<N>, d: DList<N>): (DList<N>, N)
    requires d.next.To?
  {
    var replacement := Next(cells, d.next.node);
    (DList(replacement, if replacement.Null? then Null else d.prev), d.next.node)
  }

  // ------------------------------------------------------------ what the links mean

  /** The pointer to position `i` of a list, null past its end. */
  function LinkAt<N>(xs: seq<N>, i: nat): Link<N> {
    if i < |xs| then To(xs[i]) else Null
  }

  /** Following `next` from `first` visits `xs` and then stops at null. */
  ghost predicate IsChain<N>(cells: Cells<N>, first: Link<N>, xs: seq<N>) {
    && first == LinkAt(xs, 0)
    && forall i :: 0 <= i < |xs| ==> Next(cells, xs[i]) == LinkAt(xs, i + 1)
  }

  /** The header and the links spell the queue `xs`, oldest first. */
  ghost predicate IsQueue<N>(cells: Cells<N>, d: DList<N>, xs: seq<N>) {
    && IsChain(cells, d.next, xs)
    && (if |xs| == 0 then d.prev.Null? else d.prev == To(xs[|xs| - 1]))
  }

  ghost predicate Agree<N>(a: Cells<N>, b: Cells<N>, xs: seq<N>) {
    forall x :: x in xs ==> Next(a, x) == Next(b, x)
  }

  /** A queue depends on the links of its own nodes only. */
  lemma QueueFrame<N>(a: Cells<N>, b: Cells<N>, d: DList<N>, xs: seq<N>)
    requires IsQueue(a, d, xs) && Agree(a, b, xs)
    ensures IsQueue(b, d, xs)
  {
  }

  /** The pointers determine the queue they spell. */
  lemma {:induction false} ChainUnique<N>(cells: Cells<N>, first: Link<N>, xs: seq<N>, ys: seq<N>)
    requires IsChain(cells, first, xs) && IsChain(cells, first, ys)
    ensures xs == ys
    decreases |xs|
  {
    if xs != [] && ys != [] {
      ChainUnique(cells, Next(cells, xs[0]), xs[1..], ys[1..]);
    }
  }

  /** A chain that ends in null cannot visit a node twice. */
  lemma {:induction false} ChainDistinct<N>(cells: Cells<N>, first: Link<N>, xs: seq<N>)
    requires IsChain(cells, first, xs)
    ensures Distinct(xs)
  {
    forall i, j | 0 <= i < j < |xs| ensures xs[i] != xs[j] {
      if xs[i] == xs[j] {
        ChainUnique(cells, To(xs[i]), xs[i..], xs[j..]);
      }
    }
  }

  lemma ChainLinks<N>(cells: Cells<N>, first: Link<N>, xs: seq<N>)
    requires IsChain(cells, first, xs)
    ensures first == LinkAt(xs, 0) && forall i :: 0 <= i < |xs| ==> Next(cells, xs[i]) == LinkAt(xs, i + 1)
  {
  }

  lemma QueueEnd<N>(cells: Cells<N>, d: DList<N>, xs: seq<N>)
    requires IsQueue(cells, d, xs)
    ensures if xs == [] then d.prev.Null? else d.prev == To(xs[|xs| - 1])
  {
  }

  lemma InsertIsAppend<N>(cells: Cells<N>, d: DList<N>, node: N, xs: seq<N>)
    requires IsQueue(cells, d, xs) && node !in xs
    ensures var (cells', d') := InsertDLLTail(cells, d, node);
      && IsQueue(cells', d', xs + [node])
      && cells' == if xs == [] then cells[node := Null] else cells[node := Null][xs[|xs| - 1] := To(node)]
  {
    ChainDistinct(cells, d.next, xs);
    assert xs != [] ==> xs[|xs| - 1] in xs;
  }

  lemma RemoveIsTail<N>(cells: Cells<N>, d: DList<N>, xs: seq<N>)
    requires IsQueue(cells, d, xs)
    ensures IsDLLEmpty(d) <==> xs == []
    ensures xs != [] ==>
      && d.next.To? && RemoveDLLHead(cells, d).1 == xs[0]
      && IsQueue(cells, RemoveDLLHead(cells, d).0, xs[1..])
  {
  }

  // ------------------------------------------------------------ node objects

  /** `slist_t`: a node, or the header of a last-in first-out list. */
  class Node {
    var next: Link<Node>

    constructor ()
      ensures next == Null
    {
      next := Null;
    }
  }

  ghost function LinkBefore<N>(xs: seq<N>, i: nat): Link<N>
    requires i <= |xs|
  {
    if i > 0 then To(xs[i - 1]) else Null
  }

  /** The links of a list before it is reversed, node by node … */
  ghost function LinksAfter<N>(xs: seq<N>): (ls: seq<Link<N>>)
    ensures |ls| == |xs|
  {
    seq(|xs|, i requires 0 <= i < |xs| => LinkAt(xs, i + 1))
  }

  /** … and after. */
  ghost function LinksBefore<N>(xs: seq<N>): (ls: seq<Link<N>>)
    ensures |ls| == |xs|
  {
    seq(|xs|, i requires 0 <= i < |xs| => LinkBefore(xs, i))
  }

  lemma LinksAround<N>(xs: seq<N>, i: nat)
    requires i < |xs|
    ensures LinksAfter(xs)[i] == LinkAt(xs, i + 1) && LinksBefore(xs)[i] == LinkBefore(xs, i)
  {
  }

  lemma ChainLinksAfter<N>(cells: Cells<N>, first: Link<N>, xs: seq<N>)
    requires IsChain(cells, first, xs)
    ensures first == LinkAt(xs, 0) && forall i :: 0 <= i < |xs| ==> Next(cells, xs[i]) == LinksAfter(xs)[i]
  {
  }

  ghost function CellsOf(nodes: set<Node>): Cells<Node>
    reads nodes
  {
    map n | n in nodes :: n.next
  }

  function Reverse<N>(xs: seq<N>): seq<N> {
    seq(|xs|, i requires 0 <= i < |xs| => xs[|xs| - 1 - i])
  }

  /** Links that all point one place back spell the reversed list. */
  lemma ReversedChain<N>(cells: Cells<N>, xs: seq<N>)
    requires forall j :: 0 <= j < |xs| ==> Next(cells, xs[j]) == LinksBefore(xs)[j]
    ensures IsChain(cells, LinkBefore(xs, |xs|), Reverse(xs))
  {
  }

  /** The do-while loop of `insertAllDLLTail`. */
  method ReverseInPlace(first: Link<Node>, ghost nodes: set<Node>, ghost stack: seq<Node>)
      returns (segment2: Link<Node>)
    requires (forall n <- stack :: n in nodes) && stack != []
    requires IsChain(CellsOf(nodes), first, stack)
    modifies nodes
    ensures IsChain(CellsOf(nodes), segment2, Reverse(stack))
    ensures forall n <- nodes :: n !in stack ==> n.next == old(n.next)
  {
    hide IsChain, LinksAfter, LinksBefore;
    var segment1 := first;
    segment2 := Null;
    ghost var i := 0;
    ChainDistinct(CellsOf(nodes), first, stack);
    ChainLinksAfter(CellsOf(nodes), first, stack);
    assert forall j :: 0 <= j < |stack| ==> stack[j] in nodes && stack[j].next == Next(CellsOf(nodes), stack[j]);
    while !segment1.Null?
      invariant 0 <= i <= |stack|
      invariant segment1 == LinkAt(stack, i)
      invariant segment2 == LinkBefore(stack, i)
      invariant forall j :: 0 <= j < i ==> stack[j].next == LinksBefore(stack)[j]
      invariant forall j :: i <= j < |stack| ==> stack[j].next == LinksAfter(stack)[j]
      invariant forall n <- nodes :: n !in stack ==> n.next == old(n.next)
      decreases |stack| - i
    {
      LinksAround(stack, i);
      var following := segment1.node.next;
      segment1.node.next := segment2;
      segment2 := segment1;
      segment1 := following;
      i := i + 1;
    }
    ReversedChain(CellsOf(nodes), stack);
  }

  /** `removeSLLHead`, which its callers use on lists that are not empty. */
  method RemoveHead(slist: Node, ghost nodes: set<Node>, ghost stack: seq<Node>) returns (first: Node)
    requires slist !in nodes && (forall n <- stack :: n in nodes) && stack != []
    requires IsChain(CellsOf(nodes), slist.next, stack)
    modifies slist
    ensures first == stack[0] && IsChain(CellsOf(nodes), slist.next, stack[1..])
  {
    first := slist.next.node;
    slist.next := first.next;
    assert Next(CellsOf(nodes), stack[0]) == LinkAt(stack, 1);
    forall i | 0 <= i < |stack| - 1 ensures Next(CellsOf(nodes), stack[1..][i]) == LinkAt(stack[1..], i + 1) {
      assert stack[1..][i] == stack[i + 1];
    }
  }

  lemma ReverseEnds<N>(xs: seq<N>)
    ensures |Reverse(xs)| == |xs| && forall n <- Reverse(xs) :: n in xs
    ensures xs != [] ==> Reverse(xs)[|xs| - 1] == xs[0]
  {
  }

  /** A chain hung behind the tail of a queue makes one longer queue. */
  lemma MergedQueue<N>(before: Cells<N>, mid: Cells<N>, after: Cells<N>, d: DList<N>, xs: seq<N>, ys: seq<N>)
    requires IsQueue(before, d, xs) && Agree(before, mid, xs)
    requires ys != [] && IsChain(mid, To(ys[0]), ys) && forall y <- ys :: y !in xs
    requires after == if d.prev.To? then mid[d.prev.node := To(ys[0])] else mid
    ensures IsQueue(after, DList(if d.prev.To? then d.next else To(ys[0]), To(ys[|ys| - 1])), xs + ys)
  {
    ChainDistinct(before, d.next, xs);
    forall i | 0 <= i < |xs + ys| ensures Next(after, (xs + ys)[i]) == LinkAt(xs + ys, i + 1) {
      if i < |xs| {
        assert xs[i] in xs;
      } else {
        assert (xs + ys)[i] == ys[i - |xs|] && ys[i - |xs|] in ys;
      }
    }
  }

  /** `dlist_t` as an object. */
  class DListHead {
    var next: Link<Node>
    var prev: Link<Node>

    ghost function View(): DList<Node>
      reads this
    {
      DList(next, prev)
    }

    constructor ()
      ensures View() == InitDLL()
    {
      next, prev := Null, Null;
    }

    method InsertTail(node: Node, ghost nodes: set<Node>)
      requires node in nodes && (prev.To? ==> prev.node in nodes)
      modifies this, nodes
      ensures CellsOf(nodes) == InsertDLLTail(old(CellsOf(nodes)), old(View()), node).0
      ensures View() == InsertDLLTail(old(CellsOf(nodes)), old(View()), node).1
    {
      var oldTail := prev;
      node.next := Null;
      if oldTail.To? {
        oldTail.node.next := To(node);
      } else {
        next := To(node);
      }
      prev := To(node);
    }

    method RemoveHead(ghost nodes: set<Node>) returns (oldHead: Node)
      requires next.To? && next.node in nodes
      modifies this
      ensures (View(), oldHead) == RemoveDLLHead(CellsOf(nodes), old(View()))
    {
      oldHead := next.node;
      var replacement := oldHead.next;
      if replacement.Null? {
        prev := Null;
      }
      next := replacement;
    }

    /** `insertAllDLLTail`: reverses the stack in place and hangs it behind the queue. */
    method InsertAllTail(slist: Node, ghost nodes: set<Node>, ghost stack: seq<Node>, ghost queue: seq<Node>)
      requires slist !in nodes && (forall n <- stack + queue :: n in nodes)
      requires IsChain(CellsOf(nodes), slist.next, stack)
      requires IsQueue(CellsOf(nodes), View(), queue)
      requires forall n <- stack :: n !in queue
      modifies this, nodes
      ensures IsQueue(CellsOf(nodes), View(), queue + Reverse(stack))
      ensures forall n <- nodes :: n !in stack && n !in queue ==> n.next == old(n.next)
    {
      hide IsChain, IsQueue, Reverse;
      ChainLinks(CellsOf(nodes), slist.next, stack);
      QueueEnd(CellsOf(nodes), View(), queue);
      ReverseEnds(stack);
      var segment1 := slist.next;
      var oldTail := prev;
      if segment1.Null? {
        assert queue + Reverse(stack) == queue;
        return;
      }
      prev := segment1;
      var segment2 := ReverseInPlace(segment1, nodes, stack);
      ghost var mid := CellsOf(nodes);
      ChainLinks(mid, segment2, Reverse(stack));
      assert Agree(old(CellsOf(nodes)), mid, queue);
      if oldTail.To? {
        oldTail.node.next := segment2;
      } else {
        next := segment2;
      }
      MergedQueue(old(CellsOf(nodes)), mid, CellsOf(nodes), old(View()), queue, Reverse(stack));
    }
  }

  /** `insertSLLHead`. */
  method InsertHead(node: Node, slist: Node, ghost nodes: set<Node>, ghost stack: seq<Node>)
    requires node in nodes && slist !in nodes && node !in stack && (forall n <- stack :: n in nodes)
    requires IsChain(CellsOf(nodes), slist.next, stack)
    modifies slist, node
    ensures IsChain(CellsOf(nodes), slist.next, [node] + stack)
    ensures CellsOf(nodes) == old(CellsOf(nodes))[node := old(slist.next)]
  {
    node.next := slist.next;
    slist.next := To(node);
    ghost var xs := [node] + stack;
    forall i | 0 <= i < |xs| ensures Next(CellsOf(nodes), xs[i]) == LinkAt(xs, i + 1) {
      if i > 0 { assert xs[i] == stack[i - 1]; }
    }
  }

  /** `getTailSLL`: walk to the node whose link is null. */
  method GetTail(first: Link<Node>, ghost nodes: set<Node>, ghost chain: seq<Node>) returns (tail: Link<Node>)
    requires (forall n <- chain :: n in nodes) && IsChain(CellsOf(nodes), first, chain)
    ensures tail == if chain == [] then Null else To(chain[|chain| - 1])
  {
    hide IsChain, LinksAfter;
    ChainLinksAfter(CellsOf(nodes), first, chain);
    if first.Null? {
      return Null;
    }
    var current := first.node;
    ghost var i := 0;
    LinksAround(chain, i);
    assert chain[i] in nodes && current.next == Next(CellsOf(nodes), chain[i]);
    while !current.next.Null?
      invariant i < |chain| && current == chain[i] && current in nodes && current.next == LinkAt(chain, i + 1)
      decreases |chain| - i
    {
      current := current.next.node;
      i := i + 1;
      LinksAround(chain, i);
      assert chain[i] in nodes && current.next == Next(CellsOf(nodes), chain[i]);
    }
    tail := To(current);
  }

  lemma ChainsJoined<N>(before: Cells<N>, after: Cells<N>, xs: seq<N>, ys: seq<N>, tmp: Link<N>)
    requires xs != [] && Distinct(xs) && IsChain(before, LinkAt(xs, 0), xs) && IsChain(before, tmp, ys)
    requires (forall x <- xs :: x !in ys) && after == before[xs[|xs| - 1] := tmp]
    ensures IsChain(after, LinkAt(xs, 0), xs + ys)
  {
    var zs := xs + ys;
    forall i | 0 <= i < |zs| ensures Next(after, zs[i]) == LinkAt(zs, i + 1) {
      if i < |xs| {
        assert xs[i] in xs;
      } else {
        assert ys[i - |xs|] in ys;
      }
    }
  }

  /** `insertAllSLLHead`: the entries behind `node` go in front of those behind `slist`. The
      code follows the tail of the first list, so that one must not be empty. */
  method InsertAllHead(node: Node, slist: Node, ghost nodes: set<Node>, ghost entries: seq<Node>,
                       ghost stack: seq<Node>)
    requires slist !in nodes && node !in nodes && node != slist
    requires (forall n <- entries + stack :: n in nodes) && (forall n <- entries :: n !in stack) && entries != []
    requires IsChain(CellsOf(nodes), node.next, entries) && IsChain(CellsOf(nodes), slist.next, stack)
    modifies slist, nodes
    ensures IsChain(CellsOf(nodes), slist.next, entries + stack)
    ensures forall n <- nodes :: n != entries[|entries| - 1] ==> n.next == old(n.next)
  {
    ghost var before := CellsOf(nodes);
    ChainDistinct(before, node.next, entries);
    var tmp := slist.next;
    slist.next := node.next;
    assert CellsOf(nodes) == before;
    var tail := GetTail(node.next, nodes, entries);
    assert entries[|entries| - 1] in entries;
    tail.node.next := tmp;
    ChainsJoined(before, CellsOf(nodes), entries, stack, tmp);
  }

  /** `realFreeCurrentList`: merge the cached list, then empty it. */
  method RealFreeCurrentList(slist: Node, d: DListHead, ghost nodes: set<Node>, ghost stack: seq<Node>,
                             ghost queue: seq<Node>)
    requires slist !in nodes && (forall n <- stack + queue :: n in nodes) && (forall n <- stack :: n !in queue)
    requires IsChain(CellsOf(nodes), slist.next, stack) && IsQueue(CellsOf(nodes), d.View(), queue)
    modifies slist, d, nodes
    ensures slist.next == Null && IsQueue(CellsOf(nodes), d.View(), queue + Reverse(stack))
  {
    d.InsertAllTail(slist, nodes, stack, queue);
    ghost var cells := CellsOf(nodes);
    slist.next := Null;
    assert CellsOf(nodes) == cells;
  }

  lemma ReverseTwice<N>(xs: seq<N>)
    ensures xs[..|xs|] == xs && Reverse(Reverse(xs)) == xs
    ensures forall n <- Reverse(xs) :: n in xs
  {
  }

  lemma ReversePush<N>(xs: seq<N>, i: nat)
    requires i < |xs| && Distinct(xs)
    ensures [xs[i]] + Reverse(xs[..i]) == Reverse(xs[..i + 1])
    ensures xs[i] in xs && xs[i] !in Reverse(xs[..i])
    ensures forall n <- Reverse(xs[..i]) :: n in xs
  {
    ReverseTwice(xs[..i]);
    assert forall j :: 0 <= j < i ==> xs[..i][j] == xs[j] && xs[j] in xs;
    var a, b := [xs[i]] + Reverse(xs[..i]), Reverse(xs[..i + 1]);
    forall k | 0 <= k <= i ensures a[k] == b[k] {
      assert b[k] == xs[i - k];
      if k > 0 { assert a[k] == Reverse(xs[..i])[k - 1] == xs[i - k]; }
    }
  }

  /** Freeing `xs` one by one through the cached list and then merging it … */
  method FreeThroughCache(xs: seq<Node>, slist: Node, d: DListHead, ghost nodes: set<Node>, ghost queue: seq<Node>)
    requires slist !in nodes && slist.next == Null && Distinct(xs)
    requires (forall n <- xs + queue :: n in nodes) && (forall n <- xs :: n !in queue)
    requires IsQueue(CellsOf(nodes), d.View(), queue)
    modifies slist, d, nodes
    ensures slist.next == Null && IsQueue(CellsOf(nodes), d.View(), queue + xs)
  {
    for i := 0 to |xs|
      invariant IsChain(CellsOf(nodes), slist.next, Reverse(xs[..i]))
      invariant IsQueue(CellsOf(nodes), d.View(), queue)
      invariant unchanged(d)
    {
      ReversePush(xs, i);
      ghost var before := CellsOf(nodes);
      InsertHead(xs[i], slist, nodes, Reverse(xs[..i]));
      assert Agree(before, CellsOf(nodes), queue);
      QueueFrame(before, CellsOf(nodes), d.View(), queue);
    }
    ReverseTwice(xs);
    RealFreeCurrentList(slist, d, nodes, Reverse(xs), queue);
  }

  /** … leaves the same queue as inserting them at its tail one by one. */
  method FreeDirectly(xs: seq<Node>, d: DListHead, ghost nodes: set<Node>, ghost queue: seq<Node>)
    requires Distinct(xs) && (forall n <- xs + queue :: n in nodes) && (forall n <- xs :: n !in queue)
    requires IsQueue(CellsOf(nodes), d.View(), queue)
    modifies d, nodes
    ensures IsQueue(CellsOf(nodes), d.View(), queue + xs)
  {
    for i := 0 to |xs|
      invariant IsQueue(CellsOf(nodes), d.View(), queue + xs[..i])
    {
      ghost var sofar := queue + xs[..i];
      assert xs[i] in xs && xs[i] !in sofar;
      if sofar != [] { assert sofar[|sofar| - 1] in nodes; }
      InsertIsAppend(CellsOf(nodes), d.View(), xs[i], sofar);
      d.InsertTail(xs[i], nodes);
      assert queue + xs[..i + 1] == sofar + [xs[i]];
    }
    assert xs[..|xs|] == xs;
  }
}
