/** The circular doubly linked lists of `list.hh`: a head and its members link to each other
    in a ring, and an empty list is a head linked to itself. */
module RingLists {
  import opened Options
  import opened Sequences

  /** `list_t`, with what the structure around it carries; a head carries nothing. */
  class ListNode<T> {
    var prev: ListNode<T>
    var next: ListNode<T>

    const item: Option<T>

    /** `listInit`. */
    constructor ListInit(item: Option<T>)
      ensures prev == this && next == this && this.item == item
    {
      this.item := item;
      prev, next := this, this;
    }
  }

  function After(i: nat, n: nat): nat
    requires i < n
  {
    if i + 1 == n then 0 else i + 1
  }

  function Before(i: nat, n: nat): nat
    requires i < n
  {
    if i == 0 then n - 1 else i - 1
  }

  ghost predicate Linked<T>(ring: seq<ListNode<T>>, i: nat)
    requires i < |ring|
    reads ring
  {
    ring[i].next == ring[After(i, |ring|)] && ring[i].prev == ring[Before(i, |ring|)]
  }

  /** `ring` is the head followed by the members in order. */
  ghost predicate IsRing<T>(ring: seq<ListNode<T>>)
    reads ring
  {
    |ring| > 0 && Distinct(ring) && forall i: nat :: i < |ring| ==> Linked(ring, i)
  }

  /** `__insert_between`. */
  method InsertBetween<T>(node: ListNode<T>, prev: ListNode<T>, next: ListNode<T>)
    requires node != prev && node != next
    modifies node, prev, next
    ensures node.next == next && node.prev == prev && prev.next == node && next.prev == node
    ensures prev != next ==> prev.prev == old(prev.prev) && next.next == old(next.next)
  {
    node.next := next;
    node.prev := prev;
    prev.next := node;
    next.prev := node;
  }

  /** `listInsertTail`. */
  method ListInsertTail<T>(node: ListNode<T>, head: ListNode<T>, ghost ring: seq<ListNode<T>>)
    requires IsRing(ring) && head == ring[0] && node !in ring
    modifies node, ring
    ensures IsRing(ring + [node])
  {
    ghost var last := |ring| - 1;
    assert Linked(ring, 0) && Linked(ring, last);
    InsertBetween(node, head.prev, head);
    forall i: nat | i < |ring| + 1 ensures Linked(ring + [node], i) {
      if 0 < i < last { assert old(Linked(ring, i)); }
    }
  }

  lemma DistinctWithout<T>(s: seq<T>, k: nat)
    requires Distinct(s) && k < |s|
    ensures Distinct(s[..k] + s[k + 1..])
  {
    var r := s[..k] + s[k + 1..];
    assert forall i :: 0 <= i < |r| ==> r[i] == s[if i < k then i else i + 1];
  }

  /** Around the gap that position `k` leaves. */
  lemma GapCloses<T>(ring: seq<ListNode<T>>, k: nat, i: nat)
    requires 0 < k < |ring| && i < |ring| - 1
    ensures var rest, n, j := ring[..k] + ring[k + 1..], |ring|, if i < k then i else i + 1;
      && rest[i] == ring[j] && j != k
      && rest[After(i, |rest|)] == ring[if After(j, n) == k then After(k, n) else After(j, n)]
      && rest[Before(i, |rest|)] == ring[if Before(j, n) == k then Before(k, n) else Before(j, n)]
  {
  }

  /** `__list_link`. */
  method LinkNodes<T>(p: ListNode<T>, n: ListNode<T>)
    modifies p`next, n`prev
    ensures p.next == n && n.prev == p
  {
    p.next := n;
    n.prev := p;
  }

  /** `listRemoveNode`: the neighbours close the gap and the node links to itself. */
  method ListRemoveNode<T>(node: ListNode<T>, ghost ring: seq<ListNode<T>>, ghost k: nat)
    requires IsRing(ring) && 0 < k < |ring| && node == ring[k]
    modifies ring
    ensures IsRing(ring[..k] + ring[k + 1..]) && node.prev == node && node.next == node
  {
    assert Linked(ring, k) && Linked(ring, After(k, |ring|)) && Linked(ring, k - 1);
    DistinctWithout(ring, k);
    LinkNodes(node.prev, node.next);
    node.prev, node.next := node, node;
    ghost var rest := ring[..k] + ring[k + 1..];
    forall i: nat | i < |rest| ensures Linked(rest, i) {
      GapCloses(ring, k, i);
      assert old(Linked(ring, if i < k then i else i + 1));
    }
  }

  /** `isListTail`. */
  method IsListTail<T>(node: ListNode<T>, head: ListNode<T>, ghost ring: seq<ListNode<T>>, ghost k: nat)
      returns (last: bool)
    requires IsRing(ring) && head == ring[0] && k < |ring| && node == ring[k]
    ensures last <==> k == |ring| - 1
  {
    assert Linked(ring, k);
    last := node.next == head;
  }
}
