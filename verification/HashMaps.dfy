/** The hash map of `hashmap.hh`: buckets of entries on circular lists, with a count each.
    Keys compare as `compareAddr` does, and the hash function is arbitrary. */
module HashMaps {
  import opened Options
  import opened RingLists
  import opened Sequences

  datatype Binding<K, V> = Binding(key: K, keylen: nat, value: V)

  predicate Matches<K(==), V>(b: Binding<K, V>, key: K, keylen: nat) {
    b.keylen == keylen && b.key == key
  }

  /** The values bound to a key, oldest first. */
  function Values<K(==), V>(c: seq<Binding<K, V>>, key: K, keylen: nat): (vs: seq<V>)
    ensures |vs| <= |c|
  {
    if c == [] then []
    else if Matches(c[0], key, keylen) then [c[0].value] + Values(c[1..], key, keylen)
    else Values(c[1..], key, keylen)
  }

  lemma Assoc<T>(a: seq<T>, b: seq<T>, c: seq<T>)
    ensures (a + b) + c == a + (b + c)
  {
  }

  lemma {:induction false} ValuesConcat<K, V>(c: seq<Binding<K, V>>, d: seq<Binding<K, V>>, key: K, keylen: nat)
    ensures Values(c + d, key, keylen) == Values(c, key, keylen) + Values(d, key, keylen)
  {
    if c == [] {
      assert c + d == d;
    } else {
      ValuesConcat(c[1..], d, key, keylen);
      assert (c + d)[1..] == c[1..] + d;
      Assoc([c[0].value], Values(c[1..], key, keylen), Values(d, key, keylen));
    }
  }

  lemma {:induction false} NoValues<K, V>(c: seq<Binding<K, V>>, key: K, keylen: nat)
    requires forall i :: 0 <= i < |c| ==> !Matches(c[i], key, keylen)
    ensures Values(c, key, keylen) == []
  {
    if c != [] { NoValues(c[1..], key, keylen); }
  }

  /** Splitting a bucket at the first binding of a key. */
  lemma ValuesSplit<K, V>(c: seq<Binding<K, V>>, i: nat, key: K, keylen: nat)
    requires i < |c|
    ensures Values(c, key, keylen) == Values(c[..i], key, keylen)
      + (if Matches(c[i], key, keylen) then [c[i].value] else []) + Values(c[i + 1..], key, keylen)
  {
    assert c == c[..i] + c[i..];
    ValuesConcat(c[..i], c[i..], key, keylen);
    assert c[i..][1..] == c[i + 1..];
  }

  /** Taking out the first binding of a key takes its oldest value and no other. */
  lemma RemoveFirst<K, V>(c: seq<Binding<K, V>>, i: nat, key: K, keylen: nat, k: K, l: nat)
    requires i < |c| && Matches(c[i], key, keylen) && forall j :: 0 <= j < i ==> !Matches(c[j], key, keylen)
    ensures var vs := Values(c, k, l); var rest := Values(c[..i] + c[i + 1..], k, l);
      if k == key && l == keylen then vs == [c[i].value] + rest else vs == rest
  {
    ValuesSplit(c, i, k, l);
    ValuesConcat(c[..i], c[i + 1..], k, l);
    if k == key && l == keylen {
      NoValues(c[..i], key, keylen);
    }
  }

  lemma AddLast<K, V>(c: seq<Binding<K, V>>, b: Binding<K, V>, k: K, l: nat)
    ensures Values(c + [b], k, l) == Values(c, k, l) + if Matches(b, k, l) then [b.value] else []
  {
    ValuesConcat(c, [b], k, l);
    assert [b][1..] == [];
  }

  // ------------------------------------------------------------ all entries in order

  /** The buckets one after the other. */
  function Flat<T>(cs: seq<seq<T>>): seq<T> { if cs == [] then [] else cs[0] + Flat(cs[1..]) }

  /** How many entries come before bucket `b`. */
  function Ahead<T>(cs: seq<seq<T>>, b: nat): nat
    requires b <= |cs|
  {
    |Flat(cs[..b])|
  }

  lemma {:induction false} FlatConcat<T>(cs: seq<seq<T>>, ds: seq<seq<T>>)
    ensures Flat(cs + ds) == Flat(cs) + Flat(ds)
  {
    if cs == [] {
      assert cs + ds == ds;
    } else {
      FlatConcat(cs[1..], ds);
      assert (cs + ds)[1..] == cs[1..] + ds;
      Assoc(cs[0], Flat(cs[1..]), Flat(ds));
    }
  }

  lemma AheadStep<T>(cs: seq<seq<T>>, b: nat)
    requires b < |cs|
    ensures Ahead(cs, b + 1) == Ahead(cs, b) + |cs[b]| <= |Flat(cs)|
  {
    assert cs[..b + 1] == cs[..b] + [cs[b]];
    FlatConcat(cs[..b], [cs[b]]);
    assert Flat([cs[b]]) == cs[b] + Flat([]) == cs[b];
    assert cs == cs[..b + 1] + cs[b + 1..];
    FlatConcat(cs[..b + 1], cs[b + 1..]);
  }

  /** Entry `i` of bucket `b` comes at place `Ahead(cs, b) + i`. */
  lemma FlatAt<T>(cs: seq<seq<T>>, b: nat, i: nat)
    requires b < |cs| && i < |cs[b]|
    ensures Ahead(cs, b) + i < |Flat(cs)| && Flat(cs)[Ahead(cs, b) + i] == cs[b][i]
  {
    AheadStep(cs, b);
    assert cs == cs[..b] + cs[b..];
    FlatConcat(cs[..b], cs[b..]);
  }

  lemma {:induction false} InNoBucket<T>(cs: seq<seq<T>>, x: T)
    requires forall b :: 0 <= b < |cs| ==> x !in cs[b]
    ensures x !in Flat(cs)
  {
    if cs != [] { InNoBucket(cs[1..], x); }
  }

  lemma DistinctConcat<T>(a: seq<T>, b: seq<T>)
    requires Distinct(a) && Distinct(b) && forall x :: x in a ==> x !in b
    ensures Distinct(a + b)
  {
    forall i, j | 0 <= i < j < |a + b| ensures (a + b)[i] != (a + b)[j] {
      if i < |a| <= j { assert a[i] in a && b[j - |a|] in b; }
    }
  }

  lemma {:induction false} FlatDistinct<T>(cs: seq<seq<T>>)
    requires forall b :: 0 <= b < |cs| ==> Distinct(cs[b])
    requires forall b, c, x :: 0 <= b < c < |cs| && x in cs[b] ==> x !in cs[c]
    ensures Distinct(Flat(cs))
  {
    if cs != [] {
      FlatDistinct(cs[1..]);
      forall x | x in cs[0] ensures x !in Flat(cs[1..]) {
        InNoBucket(cs[1..], x);
      }
      DistinctConcat(cs[0], Flat(cs[1..]));
    }
  }

  // ------------------------------------------------------------ the map object

  type Entry<K, V> = ListNode<Binding<K, V>>

  /** A bucket. */
  class HashEntry<K, V> {
    const list: Entry<K, V>

    var count: int

    constructor Initialize()
      ensures count == 0 && fresh(list) && list.item == None && list.next == list && list.prev == list
    {
      count := 0;
      list := new ListNode.ListInit(None);
    }
  }

  /** `iterator`; the place in the order of all entries is kept for the proofs. */
  datatype Iterator<K, V> = Iterator(entry: Option<Entry<K, V>>, pos: nat)

  function Get<K(==), V>(view: map<(K, nat), seq<V>>, key: K, keylen: nat): seq<V> {
    if (key, keylen) in view then view[(key, keylen)] else []
  }

  function KeyOf<K, V>(e: Entry<K, V>): K
    requires e.item.Some?
  {
    e.item.value.key
  }

  function KeyLenOf<K, V>(e: Entry<K, V>): nat
    requires e.item.Some?
  {
    e.item.value.keylen
  }

  ghost predicate Carry<K, V>(es: seq<Entry<K, V>>) {
    forall i :: 0 <= i < |es| ==> es[i].item.Some?
  }

  /** The bindings that entries carry. */
  ghost function Items<K, V>(es: seq<Entry<K, V>>): (c: seq<Binding<K, V>>)
    requires Carry(es)
    ensures |c| == |es|
  {
    seq(|es|, i requires 0 <= i < |es| => es[i].item.value)
  }

  class HashMap<K(==, !new), V> {
    const buckets: nat
    const hashfunc: (K, nat) -> nat

    var entries: seq<HashEntry<K, V>>
    ghost var chains: seq<seq<Entry<K, V>>>
    ghost var nodes: set<Entry<K, V>>
    ghost var heads: set<HashEntry<K, V>>
    ghost var view: map<(K, nat), seq<V>>   // the map as an ordered multimap

    /** The values bound to a key, oldest first. */
    ghost function Bound(key: K, keylen: nat): seq<V>
      reads this`view
    {
      Get(view, key, keylen)
    }

    /** Bucket `b` as its list shows it: the head, then the entries. */
    ghost function Ring(b: nat): seq<Entry<K, V>>
      requires b < |entries| == |chains|
      reads this`entries, this`chains
    {
      [entries[b].list] + chains[b]
    }

    function HashIndex(key: K, keylen: nat): nat
      requires buckets > 0
    {
      hashfunc(key, keylen) % buckets
    }

    /** The entries of bucket `b` hash to it, and its head carries nothing. */
    ghost predicate AtHome(b: nat)
      requires buckets > 0 && b < |entries| == |chains|
      reads this`entries, this`chains
    {
      entries[b].list.item == None && Carry(chains[b]) &&
      forall i :: 0 <= i < |chains[b]| ==> HashIndex(KeyOf(chains[b][i]), KeyLenOf(chains[b][i])) == b
    }

    ghost predicate Known(b: nat)
      requires b < |entries| == |chains|
      reads this`entries, this`chains, this`nodes
    {
      forall x :: x in Ring(b) ==> x in nodes
    }

    /** Everything but the counts. */
    ghost predicate Linked()
      reads this`entries, this`chains, this`nodes, nodes
    {
      && buckets > 0 && |entries| == |chains| == buckets
      && (forall b, c :: 0 <= b < c < buckets ==> entries[b] != entries[c] && entries[b].list != entries[c].list)
      && (forall b: nat :: b < buckets ==> AtHome(b) && Known(b) && IsRing(Ring(b)))
    }

    ghost predicate Counted(b: nat)
      requires b < |entries| == |chains|
      reads this`entries, this`chains, entries[b]
    {
      entries[b].count == |chains[b]|
    }

    ghost predicate Counts()
      requires |entries| == |chains| == buckets
      reads this`entries, this`chains, this`heads, heads
    {
      forall b: nat :: b < buckets ==> entries[b] in heads && Counted(b)
    }

    /** The bindings of bucket `b`, oldest first. */
    ghost function Bucket(b: nat): (c: seq<Binding<K, V>>)
      requires Linked() && b < buckets
      reads this`entries, this`chains, this`nodes, nodes
      ensures |c| == |chains[b]|
    {
      assert AtHome(b);
      Items(chains[b])
    }

    /** The values of a key on the list of its bucket. */
    ghost function Listed(key: K, keylen: nat): seq<V>
      requires Linked()
      reads this`entries, this`chains, this`nodes, nodes
    {
      Values(Bucket(HashIndex(key, keylen)), key, keylen)
    }

    /** The lists hold what the map is said to bind. */
    ghost predicate Shown()
      requires Linked()
      reads this, nodes
    {
      forall k, l {:trigger Listed(k, l)} :: Listed(k, l) == Bound(k, l)
    }

    ghost predicate Valid()
      reads this, nodes, heads
    {
      Linked() && Shown() && Counts()
    }

    /** With nothing on the lists there is nothing bound. */
    lemma AllEmpty()
      requires 0 < buckets == |entries| == |chains| && view == map[] && chains == seq(buckets, _ => [])
      requires forall b, c :: 0 <= b < c < buckets ==> entries[b] != entries[c] && entries[b].list != entries[c].list
      requires forall b: nat :: b < buckets ==> entries[b] in heads && entries[b].list in nodes && entries[b].count == 0
      requires forall b: nat :: b < buckets ==> entries[b].list.item == None && IsRing(Ring(b))
      ensures Valid()
    {
      hide IsRing;
    }

    /** `initialize`: every bucket an empty list. */
    constructor Initialize(hashfunc: (K, nat) -> nat, size: nat)
      requires size > 0
      ensures Valid() && fresh(nodes) && fresh(heads) && buckets == size && this.hashfunc == hashfunc
      ensures chains == seq(size, _ => []) && view == map[]
    {
      hide HashMap.Valid, HashMap.Linked, HashMap.Shown, HashMap.Counts;
      buckets, this.hashfunc := size, hashfunc;
      entries, chains, nodes, heads, view := [], [], {}, {}, map[];
      new;
      for i := 0 to size
        invariant |entries| == |chains| == i && fresh(heads) && fresh(nodes)
        invariant forall b: nat :: b < i ==>
          entries[b] in heads && entries[b].list in nodes && chains[b] == [] && entries[b].count == 0
        invariant forall b: nat :: b < i ==> entries[b].list.item == None && IsRing(Ring(b))
        invariant forall b, c :: 0 <= b < c < i ==> entries[b] != entries[c] && entries[b].list != entries[c].list
        modifies this`entries, this`chains, this`nodes, this`heads
      {
        var entry := new HashEntry.Initialize();
        entries, chains, nodes, heads := entries + [entry], chains + [[]], nodes + {entry.list}, heads + {entry};
        assert RingLists.Linked(Ring(i), 0);
        assert forall b: nat :: b < i ==> Ring(b) == [entries[b].list];
      }
      AllEmpty();
    }

    /** No node is on two lists. */
    lemma RingsApart(b: nat)
      requires Linked() && b < buckets
      ensures forall c: nat, x :: c < buckets && c != b && x in Ring(c) ==> x !in Ring(b)
    {
      forall c: nat, x | c < buckets && c != b && x in Ring(c) ensures x !in Ring(b) {
        assert AtHome(b) && AtHome(c);
      }
    }

    /** `getEntry`: the oldest entry of a key in its bucket. */
    method GetEntry(first: HashEntry<K, V>, key: K, keylen: nat, ghost b: nat)
        returns (result: Option<Entry<K, V>>, ghost at: nat)
      requires Valid() && b < buckets && first == entries[b]
      ensures 0 <= at <= |chains[b]| && result == (if at < |chains[b]| then Some(chains[b][at]) else None)
      ensures forall j :: 0 <= j < at ==> !Matches(Bucket(b)[j], key, keylen)
      ensures at < |chains[b]| ==> Matches(Bucket(b)[at], key, keylen)
    {
      assert AtHome(b) && Counted(b) && IsRing(Ring(b)) && RingLists.Linked(Ring(b), 0);
      var entry := first.list.next;
      var count := first.count;
      at, result := 0, None;
      while count > 0
        invariant 0 <= at <= |chains[b]| && count == |chains[b]| - at && result == None
        invariant at < |chains[b]| ==> entry == chains[b][at]
        invariant forall j :: 0 <= j < at ==> !Matches(Bucket(b)[j], key, keylen)
      {
        if Matches(entry.item.value, key, keylen) {
          result := Some(entry);
          return;
        }
        assert Ring(b)[at + 1] == entry && RingLists.Linked(Ring(b), at + 1);
        entry := entry.next;
        count := count - 1;
        at := at + 1;
      }
    }

    /** What the search of a bucket says about the values of the key. */
    lemma FirstBound(b: nat, at: nat, key: K, keylen: nat)
      requires Linked() && Shown() && b == HashIndex(key, keylen) && at <= |chains[b]|
      requires forall j :: 0 <= j < at ==> !Matches(Bucket(b)[j], key, keylen)
      requires at < |chains[b]| ==> Matches(Bucket(b)[at], key, keylen)
      ensures at == |chains[b]| <==> Bound(key, keylen) == []
      ensures at < |chains[b]| ==> Bound(key, keylen)[0] == Bucket(b)[at].value
    {
      var c := Bucket(b);
      assert Listed(key, keylen) == Bound(key, keylen);
      NoValues(c[..at], key, keylen);
      if at < |c| {
        ValuesSplit(c, at, key, keylen);
      } else {
        assert c[..at] == c;
      }
    }

    /** `find`: the oldest value of a key. */
    method Find(key: K, keylen: nat) returns (value: Option<V>)
      requires Valid()
      ensures value == if Bound(key, keylen) == [] then None else Some(Bound(key, keylen)[0])
    {
      var hindex := HashIndex(key, keylen);
      var entry, at := GetEntry(entries[hindex], key, keylen, hindex);
      FirstBound(hindex, at, key, keylen);
      assert AtHome(hindex);
      if entry.Some? {
        value := Some(entry.value.item.value.value);
      } else {
        value := None;
      }
    }

    /** A new entry at the tail of a bucket. */
    method AddEntry(head: HashEntry<K, V>, binding: Binding<K, V>) returns (entry: Entry<K, V>)
      requires Linked() && Counts() && head == entries[HashIndex(binding.key, binding.keylen)]
      modifies this`chains, this`nodes, nodes, heads
      ensures Linked() && Counts() && fresh(nodes - old(nodes)) && entry.item == Some(binding)
      ensures var b := HashIndex(binding.key, binding.keylen); chains == old(chains)[b := old(chains)[b] + [entry]]
    {
      hide IsRing;
      ghost var b := HashIndex(binding.key, binding.keylen);
      entry := new ListNode.ListInit(Some(binding));
      RingsApart(b);
      assert AtHome(b) && Known(b) && IsRing(Ring(b)) && Counted(b);
      ghost var ring := Ring(b);
      ListInsertTail(entry, head.list, ring);
      head.count := head.count + 1;
      chains := chains[b := chains[b] + [entry]];
      nodes := nodes + {entry};
      assert Ring(b) == ring + [entry];
      forall c: nat | c < buckets ensures AtHome(c) && Known(c) && IsRing(Ring(c)) && Counted(c) {
        if c != b {
          assert old(AtHome(c) && Known(c) && IsRing(Ring(c)) && Counted(c));
          assert Ring(c) == old(Ring(c));
        }
      }
    }

    /** `insertEntry`. */
    method InsertEntry(head: HashEntry<K, V>, key: K, keylen: nat, value: V)
      requires Linked() && Counts() && head == entries[HashIndex(key, keylen)]
      modifies this`chains, this`nodes, nodes, heads
      ensures Linked() && Counts() && fresh(nodes - old(nodes))
      ensures forall k, l :: Listed(k, l) == old(Listed(k, l)) + if k == key && l == keylen then [value] else []
    {
      ghost var b := HashIndex(key, keylen);
      var binding := Binding(key, keylen, value);
      var entry := AddEntry(head, binding);
      assert Bucket(b) == old(Bucket(b)) + [binding];
      forall k, l ensures Listed(k, l) == old(Listed(k, l)) + if k == key && l == keylen then [value] else [] {
        AddLast(old(Bucket(b)), binding, k, l);
        assert HashIndex(k, l) != b ==> Bucket(HashIndex(k, l)) == old(Bucket(HashIndex(k, l)));
      }
    }

    /** `insert`. */
    method Insert(key: K, keylen: nat, value: V)
      requires Valid()
      modifies this`chains, this`nodes, this`view, nodes, heads
      ensures Valid() && fresh(nodes - old(nodes))
      ensures view == old(view)[(key, keylen) := Get(old(view), key, keylen) + [value]]
    {
      var hindex := HashIndex(key, keylen);
      InsertEntry(entries[hindex], key, keylen, value);
      view := view[(key, keylen) := Bound(key, keylen) + [value]];
    }

    /** `insertIfAbsent`. */
    method InsertIfAbsent(key: K, keylen: nat, value: V) returns (isFound: bool)
      requires Valid()
      modifies this`chains, this`nodes, this`view, nodes, heads
      ensures Valid() && fresh(nodes - old(nodes))
      ensures isFound <==> old(Bound(key, keylen)) != []
      ensures view == if isFound then old(view) else old(view)[(key, keylen) := [value]]
    {
      var hindex := HashIndex(key, keylen);
      var entry, at := GetEntry(entries[hindex], key, keylen, hindex);
      FirstBound(hindex, at, key, keylen);
      isFound := entry.Some?;
      if !isFound {
        InsertEntry(entries[hindex], key, keylen, value);
        view := view[(key, keylen) := [value]];
        assert [] + [value] == [value];
      }
    }

    /** Take entry `at` off the list of bucket `b`; the count is left to the caller. */
    method RemoveEntry(entry: Entry<K, V>, ghost b: nat, ghost at: nat)
      requires Linked() && Counts() && b < buckets && at < |chains[b]| && entry == chains[b][at]
      modifies this`chains, nodes
      ensures Linked() && forall c: nat :: c < buckets && c != b ==> Counted(c)
      ensures chains == old(chains)[b := old(chains)[b][..at] + old(chains)[b][at + 1..]]
    {
      hide IsRing;
      RingsApart(b);
      assert AtHome(b) && Known(b) && IsRing(Ring(b));
      ghost var ring := Ring(b);
      ListRemoveNode(entry, ring, at + 1);
      chains := chains[b := chains[b][..at] + chains[b][at + 1..]];
      assert Ring(b) == ring[..at + 1] + ring[at + 2..];
      forall c: nat | c < buckets ensures AtHome(c) && Known(c) && IsRing(Ring(c)) {
        if c != b {
          assert old(AtHome(c) && Known(c) && IsRing(Ring(c)) && Counted(c));
          assert Ring(c) == old(Ring(c));
        }
      }
    }

    /** The entry found by `erase` goes, and with it the oldest value of its key. */
    method EraseEntry(entry: Entry<K, V>, ghost at: nat, ghost key: K, ghost keylen: nat)
      requires Linked() && Counts()
      requires at < |chains[HashIndex(key, keylen)]| && entry == chains[HashIndex(key, keylen)][at]
      requires Matches(Bucket(HashIndex(key, keylen))[at], key, keylen)
      requires forall j :: 0 <= j < at ==> !Matches(Bucket(HashIndex(key, keylen))[j], key, keylen)
      modifies this`chains, nodes
      ensures Linked() && |chains[HashIndex(key, keylen)]| == old(|chains[HashIndex(key, keylen)]|) - 1
      ensures forall c: nat :: c < buckets && c != HashIndex(key, keylen) ==> Counted(c)
      ensures forall k, l :: if k == key && l == keylen
        then |old(Listed(k, l))| > 0 && Listed(k, l) == old(Listed(k, l))[1..] else Listed(k, l) == old(Listed(k, l))
    {
      ghost var b := HashIndex(key, keylen);
      RemoveEntry(entry, b, at);
      assert Bucket(b) == old(Bucket(b))[..at] + old(Bucket(b))[at + 1..];
      forall k, l ensures if k == key && l == keylen
          then |old(Listed(k, l))| > 0 && Listed(k, l) == old(Listed(k, l))[1..]
          else Listed(k, l) == old(Listed(k, l))
      {
        RemoveFirst(old(Bucket(b)), at, key, keylen, k, l);
        assert HashIndex(k, l) != b ==> Bucket(HashIndex(k, l)) == old(Bucket(HashIndex(k, l)));
      }
    }

    /** `erase`: the oldest binding of the key goes. The count goes down even when there is
        none, so the map stays in order exactly when the key was present. */
    method Erase(key: K, keylen: nat) returns (isFound: bool)
      requires Valid()
      modifies this`chains, this`view, nodes, heads
      ensures Linked() && Shown() && (Valid() <==> isFound)
      ensures isFound <==> old(Bound(key, keylen)) != []
      ensures view == if isFound then old(view)[(key, keylen) := old(Bound(key, keylen))[1..]] else old(view)
    {
      var hindex := HashIndex(key, keylen);
      var first := entries[hindex];
      var entry, at := GetEntry(first, key, keylen, hindex);
      FirstBound(hindex, at, key, keylen);
      assert Counted(hindex);
      isFound := entry.Some?;
      if isFound {
        EraseEntry(entry.value, at, key, keylen);
        view := view[(key, keylen) := Bound(key, keylen)[1..]];
      }
      first.count := first.count - 1;
      assert Counted(hindex) <==> isFound;
      assert forall c: nat :: c < buckets && c != hindex ==> entries[c] != first;
    }

    // ---------------------------------------------------------- iteration

    /** All entries in the order of iteration: bucket by bucket, each oldest first. */
    ghost function All(): seq<Entry<K, V>>
      reads this`chains
    {
      Flat(chains)
    }

    /** The iterator stands at entry `i` of that order, or past the end. */
    ghost predicate StandsAt(it: Iterator<K, V>, i: nat)
      reads this`chains
    {
      (it.entry.None? && i == |All()|) ||
      (it.entry.Some? && it.pos < |chains| && Ahead(chains, it.pos) <= i < Ahead(chains, it.pos) + |chains[it.pos]|
        && it.entry.value == chains[it.pos][i - Ahead(chains, it.pos)])
    }

    /** The entry an iterator stands at is the one that its place in the order says. */
    lemma StandingAt(it: Iterator<K, V>, i: nat)
      requires StandsAt(it, i)
      ensures i <= |All()| && (it.entry.Some? <==> i < |All()|)
      ensures it.entry.Some? ==> it.entry.value == All()[i]
    {
      if it.entry.Some? {
        FlatAt(chains, it.pos, i - Ahead(chains, it.pos));
      }
    }

    /** The scan of `begin` and of `operator++`: the first entry of the next bucket that has
        one. */
    method FirstFrom(start: nat) returns (it: Iterator<K, V>)
      requires Valid() && start <= buckets
      ensures StandsAt(it, Ahead(chains, start))
    {
      var pos := start;
      while pos < buckets
        invariant start <= pos <= buckets && Ahead(chains, pos) == Ahead(chains, start)
      {
        AheadStep(chains, pos);
        assert Counted(pos) && IsRing(Ring(pos)) && RingLists.Linked(Ring(pos), 0);
        if entries[pos].count != 0 {
          assert Ring(pos)[1] == chains[pos][0];
          return Iterator(Some(entries[pos].list.next), pos);
        }
        pos := pos + 1;
      }
      assert chains[..buckets] == chains;
      it := Iterator(None, 0);
    }

    /** `begin`. */
    method Begin() returns (it: Iterator<K, V>)
      requires Valid()
      ensures StandsAt(it, 0)
    {
      it := FirstFrom(0);
    }

    /** `operator++`. */
    method Increment(it: Iterator<K, V>, ghost i: nat) returns (next: Iterator<K, V>)
      requires Valid() && it.entry.Some? && StandsAt(it, i)
      ensures StandsAt(next, i + 1)
    {
      ghost var at := i - Ahead(chains, it.pos);
      assert IsRing(Ring(it.pos)) && RingLists.Linked(Ring(it.pos), at + 1);
      var last := IsListTail(it.entry.value, entries[it.pos].list, Ring(it.pos), at + 1);
      if !last {
        next := it.(entry := Some(it.entry.value.next));
      } else {
        AheadStep(chains, it.pos);
        next := FirstFrom(it.pos + 1);
      }
    }

    /** Iterating from `begin` ends after visiting every entry exactly once, in order. */
    method VisitAll() returns (visited: seq<Entry<K, V>>)
      requires Valid()
      ensures visited == All()
    {
      visited := [];
      var it := Begin();
      StandingAt(it, 0);
      while it.entry.Some?
        invariant StandsAt(it, |visited|) && visited <= All()
        invariant it.entry.Some? <==> |visited| < |All()|
        decreases |All()| - |visited|
      {
        StandingAt(it, |visited|);
        ghost var i := |visited|;
        visited := visited + [it.entry.value];
        it := Increment(it, i);
        StandingAt(it, i + 1);
      }
    }

    /** No entry comes twice in that order. */
    lemma EachOnce()
      requires Linked()
      ensures Distinct(All())
    {
      forall b: nat | b < buckets ensures Distinct(chains[b]) {
        assert IsRing(Ring(b));
        forall i, j | 0 <= i < j < |chains[b]| ensures chains[b][i] != chains[b][j] {
          assert Ring(b)[i + 1] == chains[b][i] && Ring(b)[j + 1] == chains[b][j];
        }
      }
      forall b, c, x | 0 <= b < c < buckets && x in chains[b] ensures x !in chains[c] {
        RingsApart(c);
        assert forall y :: y in chains[c] ==> y in Ring(c);
        assert x in Ring(b);
      }
      FlatDistinct(chains);
    }
  }
}
