/** Large objects (`bigheap.hh`): each is a mapping of its own, found through the hash map. */
module BigHeaps {
  import opened Layout
  import opened Slots
  import opened Options
  import opened HashMaps

  const POINTER_SIZE: nat := 8
  const MAP_SIZE: nat := 1280    // THREAD_MAP_SIZE

  /** A large object's mapping and the size that was asked for. */
  datatype Mapping = Mapping(start: nat, size: nat, pageUpSize: nat)

  /** `bigObjectStatus`, filled in after it has been entered in the map. */
  class BigObjectStatus {
    var start: nat
    var size: nat
    var pageUpSize: nat

    ghost const addr: nat   // the object it describes

    constructor (ghost addr: nat)
      ensures this.addr == addr
    {
      start, size, pageUpSize := 0, 0, 0;
      this.addr := addr;
    }

    ghost predicate Records(o: Mapping)
      reads this
    {
      o == Mapping(start, size, pageUpSize)
    }

    method Fill(o: Mapping)
      modifies this
      ensures Records(o)
    {
      start, pageUpSize, size := o.start, o.pageUpSize, o.size;
    }
  }

  /** `alignup`, in `size_t` arithmetic. */
  function AlignUp(size: nat): nat {
    if size % PAGE == 0 then size else (size + (PAGE - 1)) % SIZE_LIMIT / PAGE * PAGE
  }

  lemma AlignUpFits(size: nat)
    requires size < SIZE_LIMIT
    ensures AlignUp(size) % PAGE == 0
    ensures AlignUp(size) == 0 || size <= AlignUp(size) < size + PAGE
  {
    if size % PAGE != 0 {
      var n := (size + (PAGE - 1)) % SIZE_LIMIT;
      assert n / PAGE * PAGE % PAGE == 0;
      if size + (PAGE - 1) >= SIZE_LIMIT {
        assert n == size + (PAGE - 1) - SIZE_LIMIT < PAGE;
      }
    }
  }

  /** The object of a mapping ends where the mapping ends. */
  predicate EndsAtMapping(addr: nat, o: Mapping) {
    0 < o.size <= o.pageUpSize && o.start % PAGE == 0 && o.pageUpSize % PAGE == 0
    && addr + o.size == o.start + o.pageUpSize && o.start <= addr
  }

  ghost predicate Apart(o: Mapping, p: Mapping) {
    Disjoint(o.start, o.pageUpSize, p.start, p.pageUpSize)
  }

  /** Where the object of a new mapping starts. */
  predicate PutAtEnd(addr: nat, start: nat, size: nat) {
    addr + size == start + AlignUp(size) && start <= addr
  }

  /** What the operating system promises about a new mapping. */
  ghost predicate FreshMapping(regions: map<(nat, nat), nat>, start: nat, len: nat) {
    start % PAGE == 0 && len > 0 && forall r <- regions :: Disjoint(start, len, r.0, r.1)
  }

  function Region(o: Mapping): (nat, nat) { (o.start, o.pageUpSize) }

  /** Mappings are disjoint, each holds one object at its end, and those are all there are. */
  ghost predicate MappingsMatch(live: map<nat, Mapping>, regions: map<(nat, nat), nat>) {
    && (forall k <- live :: EndsAtMapping(k, live[k]) && Region(live[k]) in regions && regions[Region(live[k])] == k)
    && (forall r <- regions :: regions[r] in live && Region(live[regions[r]]) == r)
    && (forall k, j :: k in live && j in live && k != j ==> Apart(live[k], live[j]))
  }

  lemma MappingAdded(live: map<nat, Mapping>, regions: map<(nat, nat), nat>, addr: nat, o: Mapping)
    requires MappingsMatch(live, regions) && EndsAtMapping(addr, o) && FreshMapping(regions, o.start, o.pageUpSize)
    ensures addr !in live && Region(o) !in regions && MappingsMatch(live[addr := o], regions[Region(o) := addr])
  {
    assert addr in live ==> Region(live[addr]) in regions;
    var live' := live[addr := o];
    forall k, j | k in live' && j in live' && k != j ensures Apart(live'[k], live'[j]) {
      if k == addr {
        assert Region(live[j]) in regions;
      } else if j == addr {
        assert Region(live[k]) in regions;
      }
    }
  }

  /** Unmapping a live object's mapping leaves those of the others. */
  lemma MappingRemoved(live: map<nat, Mapping>, regions: map<(nat, nat), nat>, addr: nat)
    requires MappingsMatch(live, regions) && addr in live
    ensures Region(live[addr]) in regions && MappingsMatch(live - {addr}, regions - {Region(live[addr])})
  {
  }

  /** The table binds exactly the live objects, each once. */
  ghost predicate TableMatches<V>(view: map<(nat, nat), seq<V>>, status: map<nat, V>) {
    forall k, l :: Get(view, k, l) == if l == POINTER_SIZE && k in status then [status[k]] else []
  }

  lemma TableAdded<V>(view: map<(nat, nat), seq<V>>, status: map<nat, V>, k: nat, v: V)
    requires TableMatches(view, status) && k !in status
    ensures TableMatches(view[(k, POINTER_SIZE) := Get(view, k, POINTER_SIZE) + [v]], status[k := v])
  {
    var view', status' := view[(k, POINTER_SIZE) := Get(view, k, POINTER_SIZE) + [v]], status[k := v];
    forall j, l ensures Get(view', j, l) == if l == POINTER_SIZE && j in status' then [status'[j]] else [] {
      assert Get(view, j, l) == if l == POINTER_SIZE && j in status then [status[j]] else [];
    }
  }

  lemma TableRemoved<V>(view: map<(nat, nat), seq<V>>, status: map<nat, V>, k: nat)
    requires TableMatches(view, status) && k in status
    ensures Get(view, k, POINTER_SIZE) == [status[k]]
    ensures TableMatches(view[(k, POINTER_SIZE) := Get(view, k, POINTER_SIZE)[1..]], status - {k})
  {
    var view', status' := view[(k, POINTER_SIZE) := Get(view, k, POINTER_SIZE)[1..]], status - {k};
    forall j, l ensures Get(view', j, l) == if l == POINTER_SIZE && j in status' then [status'[j]] else [] {
      assert Get(view, j, l) == if l == POINTER_SIZE && j in status then [status[j]] else [];
    }
  }

  /** The bytes that survive when `[start, start + len)` is mapped or unmapped. */
  function Outside(mem: map<nat, int>, start: nat, len: nat): map<nat, int> {
    map a | a in mem && !(start <= a < start + len) :: mem[a]
  }

  class BigHeap {
    const xmap: HashMap<nat, BigObjectStatus>

    var mem: map<nat, int>               // bytes of the mappings; absent bytes are zero
    ghost var regions: map<(nat, nat), nat>   // mapped and not yet unmapped, with the object in it
    ghost var live: map<nat, Mapping>
    ghost var status: map<nat, BigObjectStatus>
    ghost var objects: set<BigObjectStatus>

    /** The status objects are distinct and say what is live. */
    ghost predicate StatusMatches()
      reads this`live, this`status, this`objects, objects
    {
      && (forall k :: k in status <==> k in live)
      && (forall k <- live :: status[k] in objects && status[k].addr == k && status[k].Records(live[k]))
    }

    ghost predicate Valid()
      reads this, xmap, xmap.nodes, xmap.heads, objects
    {
      xmap.Valid() && TableMatches(xmap.view, status) && StatusMatches() && MappingsMatch(live, regions)
    }

    /** `initBigHeap`. */
    constructor InitBigHeap(hashAddr: (nat, nat) -> nat)
      ensures Valid() && live == map[] && fresh(xmap) && fresh(xmap.nodes) && fresh(xmap.heads) && objects == {}
    {
      xmap := new HashMap.Initialize(hashAddr, MAP_SIZE);
      mem, regions, live, status, objects := map[], map[], map[], map[], {};
    }

    /** `getObjectSize`; `None` stands for the `-1` of an unknown object. */
    method GetObjectSize(addr: nat) returns (size: Option<nat>)
      requires Valid()
      ensures size == if addr in live then Some(live[addr].size) else None
    {
      var objStatus := xmap.Find(addr, POINTER_SIZE);
      if objStatus.None? {
        return None;
      }
      assert status[addr].Records(live[addr]);
      return Some(objStatus.value.size);
    }

    /** `isLargeObject`. */
    method IsLargeObject(addr: nat) returns (large: bool)
      requires Valid()
      ensures large <==> addr in live
    {
      var objStatus := xmap.Find(addr, POINTER_SIZE);
      large := objStatus.Some?;
    }

    method AddToTable(addr: nat, objStatus: BigObjectStatus)
      requires xmap.Valid() && TableMatches(xmap.view, status) && addr !in status
      modifies this`status, xmap, xmap.nodes, xmap.heads
      ensures xmap.Valid() && TableMatches(xmap.view, status) && status == old(status)[addr := objStatus]
      ensures fresh(xmap.nodes - old(xmap.nodes)) && xmap.heads == old(xmap.heads)
    {
      hide HashMap.Valid, TableMatches, Get;
      TableAdded(xmap.view, status, addr, objStatus);
      status := status[addr := objStatus];
      xmap.Insert(addr, POINTER_SIZE, objStatus);
    }

    /** Enter an object in the table and fill in its status. */
    method Enter(addr: nat, o: Mapping)
      requires xmap.Valid() && TableMatches(xmap.view, status) && StatusMatches() && addr !in live
      modifies this`live, this`status, this`objects, xmap, xmap.nodes, xmap.heads
      ensures xmap.Valid() && TableMatches(xmap.view, status) && StatusMatches() && live == old(live)[addr := o]
      ensures fresh(xmap.nodes - old(xmap.nodes)) && xmap.heads == old(xmap.heads)
    {
      hide HashMap.Valid, TableMatches, BigObjectStatus.Records;
      ghost var before := status;
      var objStatus := new BigObjectStatus(addr);
      AddToTable(addr, objStatus);
      objStatus.Fill(o);
      live, objects := live[addr := o], objects + {objStatus};
      forall k | k in live ensures status[k] in objects && status[k].addr == k && status[k].Records(live[k]) {
        if k != addr { assert status[k] == before[k] && old(before[k].Records(live[k])); }
      }
    }

    /** Put an object at the end of a new mapping. */
    method MapObject(size: nat, pageUpSize: nat, ptr: nat) returns (objStartPtr: nat)
      requires Valid() && 0 < size <= pageUpSize && pageUpSize % PAGE == 0
      requires FreshMapping(regions, ptr, pageUpSize)
      modifies this, xmap, xmap.nodes, xmap.heads
      ensures Valid() && fresh(xmap.nodes - old(xmap.nodes)) && xmap.heads == old(xmap.heads)
      ensures objStartPtr == ptr + pageUpSize - size && objStartPtr !in old(live)
      ensures live == old(live)[objStartPtr := Mapping(ptr, size, pageUpSize)]
      ensures mem == Outside(old(mem), ptr, pageUpSize) && regions == old(regions)[(ptr, pageUpSize) := objStartPtr]
    {
      hide HashMap.Valid, TableMatches, BigHeap.StatusMatches, MappingsMatch;
      var diff: nat := pageUpSize - size;
      objStartPtr := ptr + diff;
      MappingAdded(live, regions, objStartPtr, Mapping(ptr, size, pageUpSize));
      mem, regions := Outside(mem, ptr, pageUpSize), regions[(ptr, pageUpSize) := objStartPtr];
      Enter(objStartPtr, Mapping(ptr, size, pageUpSize));
    }

    /** `allocateAtBigHeap`; `mapped` is the answer of `mmap` for the rounded-up size, and
        `None` where the process exits because there is no mapping. */
    method AllocateAtBigHeap(size: nat, mapped: Option<nat>) returns (addr: Option<nat>)
      requires Valid() && 0 < size < SIZE_LIMIT
      requires mapped.Some? ==> FreshMapping(regions, mapped.value, AlignUp(size))
      modifies this, xmap, xmap.nodes, xmap.heads
      ensures Valid() && fresh(xmap.nodes - old(xmap.nodes)) && xmap.heads == old(xmap.heads)
      ensures mapped.None? ==> addr == None && live == old(live) && mem == old(mem)
      ensures mapped.Some? ==> (addr.Some? && PutAtEnd(addr.value, mapped.value, size) && addr.value !in old(live))
      ensures mapped.Some? ==> live == old(live)[addr.value := Mapping(mapped.value, size, AlignUp(size))]
      ensures mapped.Some? ==> mem == Outside(old(mem), mapped.value, AlignUp(size))
      ensures mapped.Some? ==> regions == old(regions)[(mapped.value, AlignUp(size)) := addr.value]
    {
      if mapped.None? {
        return None;
      }
      AlignUpFits(size);
      var objStartPtr := MapObject(size, AlignUp(size), mapped.value);
      return Some(objStartPtr);
    }

    /** Take a live object out of the table. */
    method Remove(ptr: nat)
      requires xmap.Valid() && TableMatches(xmap.view, status) && StatusMatches() && ptr in live
      modifies this`live, this`status, xmap, xmap.nodes, xmap.heads
      ensures xmap.Valid() && TableMatches(xmap.view, status) && StatusMatches()
      ensures live == old(live) - {ptr} && objects == old(objects)
      ensures xmap.nodes == old(xmap.nodes) && xmap.heads == old(xmap.heads)
    {
      hide TableMatches, HashMap.Valid, HashMap.Linked, HashMap.Shown, BigObjectStatus.Records;
      TableRemoved(xmap.view, status, ptr);
      var found := xmap.Erase(ptr, POINTER_SIZE);
      live, status := live - {ptr}, status - {ptr};
    }

    method Unmap(ptr: nat, start: nat, pageUpSize: nat)
      requires Valid() && ptr in live && Region(live[ptr]) == (start, pageUpSize)
      modifies this, xmap, xmap.nodes, xmap.heads
      ensures Valid() && xmap.nodes == old(xmap.nodes) && xmap.heads == old(xmap.heads)
      ensures objects == old(objects) && live == old(live) - {ptr}
      ensures (start, pageUpSize) in old(regions) && regions == old(regions) - {(start, pageUpSize)}
      ensures mem == Outside(old(mem), start, pageUpSize)
    {
      hide HashMap.Valid, TableMatches, BigHeap.StatusMatches, MappingsMatch;
      MappingRemoved(live, regions, ptr);
      regions, mem := regions - {(start, pageUpSize)}, Outside(mem, start, pageUpSize);
      Remove(ptr);
    }

    /** `deallocateToBigHeap`: exactly the live objects are freed, each mapping is unmapped
        once, and for anything else the process exits. */
    method DeallocateToBigHeap(ptr: nat) returns (freed: bool)
      requires Valid()
      modifies this, xmap, xmap.nodes, xmap.heads
      ensures Valid() && xmap.nodes == old(xmap.nodes) && xmap.heads == old(xmap.heads)
      ensures freed <==> ptr in old(live)
      ensures objects == old(objects) && (freed ==> live == old(live) - {ptr})
      ensures freed ==> Region(old(live)[ptr]) in old(regions) && regions == old(regions) - {Region(old(live)[ptr])}
      ensures freed ==> mem == Outside(old(mem), old(live)[ptr].start, old(live)[ptr].pageUpSize)
      ensures !freed ==> live == old(live) && regions == old(regions) && mem == old(mem)
    {
      var objStatus := xmap.Find(ptr, POINTER_SIZE);
      if objStatus.None? {
        return false;
      }
      assert objStatus.value == status[ptr] && objStatus.value.Records(live[ptr]);
      Unmap(ptr, objStatus.value.start, objStatus.value.pageUpSize);
      return true;
    }

    /** A client writes a byte of a live large object. */
    method ClientStore(ptr: nat, offset: nat, value: int)
      requires Valid() && ptr in live && offset < live[ptr].size
      modifies this`mem
      ensures Valid() && mem == old(mem)[ptr + offset := value]
    {
      mem := mem[ptr + offset := value];
    }
  }
}
