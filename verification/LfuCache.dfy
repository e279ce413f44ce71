/**
 * An object cache with least-frequently-used policy: a map of entries linked by pointers to a min-heap of
 * priority cells. The cells are allocated and freed by hand, so the memory that holds them is part of the state.
 */
module LfuCaches {
  import opened Heaps
  import opened MachineInts
  import opened Options
  import opened Sequences

  /** A shared pointer to a cached value; the cache never looks inside. */
  type Shared = nat

  /** A value and the pointer to its priority cell, which is null while the entry is being made. */
  datatype Entry = Entry(value: Shared, cell: Option<Pointer>)

  /** The three linked structures of a cache. */
  datatype Links = Links(policy: seq<Pointer>, storage: map<string, Entry>, memory: map<Pointer, Cell>)
  {
    /** The cell p belongs to the entry of its key. */
    ghost predicate OwnCell(p: Pointer)
      requires p in memory
    {
      memory[p].key in storage && storage[memory[p].key].cell == Some(p)
    }

    /** The entry of k points at a cell for k. */
    ghost predicate OwnEntry(k: string)
      requires k in storage
    {
      var cell := storage[k].cell;
      cell.Some? && cell.value in memory && memory[cell.value].key == k
    }

    /**
     * The allocated cells are those of the heap, each once, and map and heap are in bijection.
     * Pending keys are entered but have no cell yet.
     */
    ghost predicate Linked(pending: set<string>)
    {
      && multiset(policy) == multiset(memory.Keys)
      && (forall p :: p in memory ==> OwnCell(p) && memory[p].key !in pending)
      && (forall k :: k in storage && k !in pending ==> OwnEntry(k))
    }

    ghost predicate MinHeap()
    {
      Heap(policy, memory)
    }

    ghost predicate Ready(pending: set<string>)
    {
      Linked(pending) && MinHeap()
    }

    /** 0 for a key that is not in the cache. */
    function Priority(key: string): uint32
    {
      if key in storage && storage[key].cell.Some? && storage[key].cell.value in memory
      then memory[storage[key].cell.value].priority
      else 0
    }

    /** No key has a lower priority than the given one. */
    ghost predicate Least(key: string)
    {
      key in storage && forall k :: k in storage ==> Priority(key) <= Priority(k)
    }

    ghost function Contents(): map<string, Shared>
    {
      map k | k in storage :: storage[k].value
    }

    /** Priorities count finds, in 32 bits. */
    ghost predicate Counted(finds: map<string, nat>)
    {
      forall k :: k in storage && k in finds ==> Priority(k) == Wrapped(finds[k] + 1)
    }
  }

  /** The remainder that 32-bit arithmetic leaves. */
  function Wrapped(x: nat): uint32
  {
    x % 0x1_0000_0000
  }

  lemma WrapNext(f: nat)
    ensures Wrapped(Wrapped(f) + 1) == Wrapped(f + 1)
  {
  }

  /** What inserting a new key makes of a map: a full cache first loses the evicted key. */
  ghost function Inserted<U>(m: map<string, U>, evicted: Option<string>, key: string, u: U): map<string, U>
  {
    (if evicted.Some? then m - {evicted.value} else m)[key := u]
  }

  // ------------------------------------------------------------------ the steps on the linked structures

  lemma HeapHoldsCells(policy: seq<Pointer>, memory: map<Pointer, Cell>)
    requires multiset(policy) == multiset(memory.Keys)
    ensures Distinct(policy)
    ensures forall p :: p in policy <==> p in memory
  {
    forall p
      ensures p in policy <==> p in memory
    {
      assert p in multiset(policy) <==> p in multiset(memory.Keys);
    }
    forall i, j | 0 <= i < j < |policy|
      ensures policy[i] != policy[j]
    {
      SplitMultiset(policy, j);
      assert policy[i] in policy[..j] && policy[j] == policy[j..][0];
      assert multiset(policy)[policy[j]] <= 1;
    }
  }

  lemma LeastAtRoot(s: Links)
    requires s.Ready({}) && s.policy != []
    ensures s.policy[0] in s.memory && s.Least(s.memory[s.policy[0]].key)
  {
    HeapHoldsCells(s.policy, s.memory);
    var root := s.policy[0];
    assert root in s.policy && s.OwnCell(root);
    forall k | k in s.storage
      ensures s.memory[root].priority <= s.Priority(k)
    {
      assert s.OwnEntry(k);
      var j :| 0 <= j < |s.policy| && s.policy[j] == s.storage[k].cell.value;
      RootIsLeast(s.policy, s.memory, j);
    }
  }

  lemma SameRanksSameHeap(policy: seq<Pointer>, a: map<Pointer, Cell>, b: map<Pointer, Cell>)
    requires forall p :: p in policy ==> p in a && p in b && a[p] == b[p]
    requires Heap(policy, a)
    ensures Heap(policy, b)
  {
    forall j | 0 < j < |policy|
      ensures Ordered(policy, b, j)
    {
      assert Ordered(policy, a, j);
      assert policy[j] in policy && policy[Parent(j)] in policy;
    }
  }

  lemma Rearranged(s: Links, policy: seq<Pointer>, pending: set<string>)
    requires s.Linked(pending) && multiset(policy) == multiset(s.policy)
    ensures s.(policy := policy).Linked(pending)
  {
    var t := s.(policy := policy);
    assert forall p :: p in s.memory ==> s.OwnCell(p) ==> t.OwnCell(p);
    assert forall k :: k in s.storage ==> s.OwnEntry(k) ==> t.OwnEntry(k);
  }

  /** Takes the root of the heap, a cell of least priority, out of both structures and frees it. */
  method RemoveTop(s: Links, ghost pending: set<string>) returns (r: Links)
    requires s.policy != [] && s.Ready(pending) && s.policy[0] in s.memory
    ensures r.Ready(pending) && |r.policy| == |s.policy| - 1
    ensures r.memory == s.memory - {s.policy[0]} && r.storage == s.storage - {s.memory[s.policy[0]].key}
  {
    var moved := PopHeap(s.policy, s.memory);
    Rearranged(s, moved, pending);
    var back := moved[|moved| - 1];
    Unlinked(s.(policy := moved), pending);
    r := Links(moved[..|moved| - 1], s.storage - {s.memory[back].key}, s.memory - {back});
  }

  lemma Unlinked(s: Links, pending: set<string>)
    requires s.policy != [] && s.Linked(pending) && Heap(s.policy[..|s.policy| - 1], s.memory)
    ensures s.policy[|s.policy| - 1] in s.memory
    ensures var back := s.policy[|s.policy| - 1];
            Links(s.policy[..|s.policy| - 1], s.storage - {s.memory[back].key}, s.memory - {back}).Ready(pending)
  {
    var back := s.policy[|s.policy| - 1];
    CellFreed(s.policy, s.memory);
    UnlinkedOwners(s, pending, back, Links(s.policy[..|s.policy| - 1], s.storage - {s.memory[back].key}, s.memory - {back}));
  }

  lemma CellFreed(policy: seq<Pointer>, memory: map<Pointer, Cell>)
    requires policy != [] && multiset(policy) == multiset(memory.Keys) && Heap(policy[..|policy| - 1], memory)
    ensures policy[|policy| - 1] in memory
    ensures var freed := memory - {policy[|policy| - 1]};
            multiset(policy[..|policy| - 1]) == multiset(freed.Keys) && Heap(policy[..|policy| - 1], freed)
  {
    var back, front := policy[|policy| - 1], policy[..|policy| - 1];
    var freed := memory - {back};
    assert policy == front + [back];
    assert multiset(policy) == multiset(front) + multiset{back};
    assert freed.Keys == memory.Keys - {back};
    assert multiset(freed.Keys) == multiset(memory.Keys) - multiset{back};
    HeapHoldsCells(policy, memory);
    HeapHoldsCells(front, freed);
    SameRanksSameHeap(front, memory, freed);
  }

  lemma UnlinkedOwners(s: Links, pending: set<string>, back: Pointer, t: Links)
    requires s.Linked(pending) && back in s.memory
    requires t.storage == s.storage - {s.memory[back].key} && t.memory == s.memory - {back}
    ensures forall p :: p in t.memory ==> t.OwnCell(p) && t.memory[p].key !in pending
    ensures forall k :: k in t.storage && k !in pending ==> t.OwnEntry(k)
  {
    assert s.OwnCell(back);
    forall p | p in t.memory
      ensures t.OwnCell(p)
    {
      assert s.OwnCell(p);
    }
    forall k | k in t.storage && k !in pending
      ensures t.OwnEntry(k)
    {
      assert s.OwnEntry(k);
    }
  }

  lemma Entered(s: Links, key: string, e: Entry)
    requires s.Ready({}) && key !in s.storage
    ensures s.(storage := s.storage[key := e]).Ready({key})
  {
    var t := s.(storage := s.storage[key := e]);
    forall p | p in t.memory
      ensures t.OwnCell(p) && t.memory[p].key != key
    {
      assert s.OwnCell(p);
    }
    forall k | k in t.storage && k != key
      ensures t.OwnEntry(k)
    {
      assert s.OwnEntry(k);
    }
  }

  /** Allocation: any address that is not in use will do. */
  method New(memory: map<Pointer, Cell>) returns (p: Pointer)
    ensures p !in memory
  {
    var used := memory.Keys;
    p := 0;
    while p in used
      invariant forall q :: q in memory ==> q in used || q < p
      decreases |used|
    {
      used := used - {p};
      p := p + 1;
    }
  }

  lemma CellLinked(s: Links, key: string, value: Shared, p: Pointer)
    requires s.Ready({key}) && p !in s.memory && key in s.storage
    ensures Links(s.policy + [p], s.storage[key := Entry(value, Some(p))], s.memory[p := Cell(key, 1)]).Linked({})
  {
    var t := Links(s.policy + [p], s.storage[key := Entry(value, Some(p))], s.memory[p := Cell(key, 1)]);
    forall q | q in t.memory
      ensures t.OwnCell(q)
    {
      if q != p { assert s.OwnCell(q); }
    }
    forall k | k in t.storage
      ensures t.OwnEntry(k)
    {
      if k != key { assert s.OwnEntry(k); }
    }
    assert t.memory.Keys == s.memory.Keys + {p};
  }

  lemma CellKeepsHeap(s: Links, key: string, p: Pointer)
    requires s.Ready({key}) && p !in s.memory
    ensures Heap(s.policy, s.memory[p := Cell(key, 1)])
    ensures (s.policy + [p])[..|s.policy|] == s.policy
  {
    HeapHoldsCells(s.policy, s.memory);
    SameRanksSameHeap(s.policy, s.memory, s.memory[p := Cell(key, 1)]);
    InitOfSnoc(s.policy, p);
  }

  /** Allocates the cell of a pending key and links it into both structures. */
  method AddCell(s: Links, key: string, value: Shared) returns (r: Links, p: Pointer)
    requires s.Ready({key}) && key in s.storage
    ensures r.Ready({}) && |r.policy| == |s.policy| + 1
    ensures p !in s.memory && r.memory == s.memory[p := Cell(key, 1)]
    ensures r.storage == s.storage[key := Entry(value, Some(p))]
  {
    p := New(s.memory);
    CellLinked(s, key, value, p);
    CellKeepsHeap(s, key, p);
    var pushed := Links(s.policy + [p], s.storage[key := Entry(value, Some(p))], s.memory[p := Cell(key, 1)]);
    var heap := PushHeap(pushed.policy, pushed.memory);
    Rearranged(pushed, heap, {});
    r := pushed.(policy := heap);
  }

  /** Enters a new key without a cell; a full cache evicts a key of least priority, which is never the new one. */
  method MakeRoom(s: Links, capacity: nat, key: string, value: Shared)
    returns (r: Links, ghost evicted: Option<string>)
    requires s.Ready({}) && |s.policy| <= capacity && capacity > 0 && key !in s.storage
    ensures r.Ready({key}) && |r.policy| < capacity
    ensures evicted.Some? <==> |s.policy| == capacity
    ensures evicted.Some? ==> s.Least(evicted.value)
    ensures r.storage == Inserted(s.storage, evicted, key, Entry(value, None))
    ensures forall p :: p in r.memory ==> p in s.memory && r.memory[p] == s.memory[p]
  {
    evicted := None;
    if s.policy != [] { LeastAtRoot(s); }
    Entered(s, key, Entry(value, None));
    r := s.(storage := s.storage[key := Entry(value, None)]);
    if |s.policy| == capacity {
      evicted := Some(s.memory[s.policy[0]].key);
      r := RemoveTop(r, {key});
    }
  }

  /** Priorities of the keys that stay are not touched. */
  lemma PrioritiesKept(s: Links, evicted: Option<string>, room: Links, key: string, value: Shared, p: Pointer,
                          r: Links)
    requires s.Linked({}) && r.Linked({}) && key !in s.storage
    requires room.storage == Inserted(s.storage, evicted, key, Entry(value, None))
    requires forall q :: q in room.memory ==> q in s.memory && room.memory[q] == s.memory[q]
    requires r.storage == room.storage[key := Entry(value, Some(p))] && r.memory == room.memory[p := Cell(key, 1)]
    ensures forall k :: k in r.storage ==> r.Priority(k) == if k == key then 1 else s.Priority(k)
  {
    forall k | k in r.storage
      ensures r.Priority(k) == if k == key then 1 else s.Priority(k)
    {
      assert r.OwnEntry(k);
      if k != key { assert s.OwnEntry(k); }
    }
  }

  lemma ContentsInserted(s: Links, evicted: Option<string>, key: string, e: Entry, f: Entry, r: Links)
    requires r.storage == Inserted(s.storage, evicted, key, e)[key := f]
    ensures r.Contents() == Inserted(s.Contents(), evicted, key, f.value)
    ensures r.storage.Keys == Inserted(s.storage, evicted, key, f).Keys
  {
  }

  /** Adds a key that is not there yet, with priority 1; all other keys that stay keep theirs. */
  method TryInsert(s: Links, capacity: nat, key: string, value: Shared)
    returns (inserted: bool, r: Links, ghost evicted: Option<string>)
    requires s.Ready({}) && |s.policy| <= capacity && capacity > 0
    ensures r.Ready({}) && |r.policy| <= capacity
    ensures inserted <==> key !in s.storage
    ensures !inserted ==> r == s && evicted.None?
    ensures inserted ==> (evicted.Some? <==> |s.policy| == capacity)
    ensures inserted && evicted.Some? ==> s.Least(evicted.value) && evicted.value != key
    ensures inserted ==> r.Contents() == Inserted(s.Contents(), evicted, key, value)
    ensures forall k :: k in r.storage ==> r.Priority(k) == if inserted && k == key then 1 else s.Priority(k)
  {
    if key in s.storage {
      return false, s, None;
    }
    var room, p;
    room, evicted := MakeRoom(s, capacity, key, value);
    r, p := AddCell(room, key, value);
    inserted := true;
    PrioritiesKept(s, evicted, room, key, value, p, r);
    ContentsInserted(s, evicted, key, Entry(value, None), Entry(value, Some(p)), r);
  }

  lemma CellChanged(s: Links, key: string, priority: uint32, r: Links)
    requires s.Linked({}) && key in s.storage && s.OwnEntry(key)
    requires r.storage == s.storage && r.memory == s.memory[s.storage[key].cell.value := Cell(key, priority)]
    requires multiset(r.policy) == multiset(s.policy)
    ensures r.Linked({})
    ensures forall k :: k in r.storage ==> r.Priority(k) == if k == key then priority else s.Priority(k)
  {
    assert r.memory.Keys == s.memory.Keys;
    forall p | p in r.memory
      ensures r.OwnCell(p)
    {
      assert s.OwnCell(p);
    }
    forall k | k in r.storage
      ensures r.OwnEntry(k) && r.Priority(k) == if k == key then priority else s.Priority(k)
    {
      assert s.OwnEntry(k);
    }
  }

  /** Overwrites one priority and restores the heap, as update, find and erase do. */
  method SetPriority(s: Links, key: string, priority: uint32) returns (r: Links)
    requires s.Linked({}) && key in s.storage && s.OwnEntry(key)
    ensures r.Ready({}) && multiset(r.policy) == multiset(s.policy) && |r.policy| == |s.policy|
    ensures r.storage == s.storage && r.memory == s.memory[s.storage[key].cell.value := Cell(key, priority)]
    ensures forall k :: k in r.storage ==> r.Priority(k) == if k == key then priority else s.Priority(k)
  {
    var p := s.storage[key].cell.value;
    var memory := s.memory[p := Cell(s.memory[p].key, priority)];
    var heap := MakeHeap(s.policy, memory);
    r := Links(heap, s.storage, memory);
    CellChanged(s, key, priority, r);
  }

  lemma ValueChanged(s: Links, key: string, value: Shared, r: Links)
    requires s.Linked({}) && key in s.storage
    requires r == s.(storage := s.storage[key := Entry(value, s.storage[key].cell)])
    ensures r.Linked({}) && r.OwnEntry(key) && r.Contents() == s.Contents()[key := value]
    ensures forall k :: k in r.storage ==> r.Priority(k) == s.Priority(k)
  {
    forall p | p in r.memory
      ensures r.OwnCell(p)
    {
      assert s.OwnCell(p);
    }
    forall k | k in r.storage
      ensures r.OwnEntry(k)
    {
      assert s.OwnEntry(k);
    }
  }

  /** Replaces the value of a key and resets its priority. */
  method Overwrite(s: Links, key: string, value: Shared) returns (r: Links)
    requires s.Linked({}) && key in s.storage
    ensures r.Ready({}) && |r.policy| == |s.policy|
    ensures r.Contents() == Inserted(s.Contents(), None, key, value)
    ensures forall k :: k in r.storage ==> r.Priority(k) == if k == key then 1 else s.Priority(k)
  {
    var overwritten := s.(storage := s.storage[key := Entry(value, s.storage[key].cell)]);
    ValueChanged(s, key, value, overwritten);
    r := SetPriority(overwritten, key, 1);
    SameContents(overwritten, r);
  }

  /** Sets the priority of a key to the minimum and removes the root of the heap. */
  method EraseMinimum(s: Links, key: string) returns (r: Links, victim: string)
    requires s.Ready({}) && key in s.storage
    ensures r.Ready({}) && |r.policy| == |s.policy| - 1
    ensures victim in s.storage && (victim == key || s.Priority(victim) == 0)
    ensures exists heap :: MayLeave(s, key, heap) && Removes(s, key, heap, victim)
    ensures r.Contents() == s.Contents() - {victim}
    ensures forall k :: k in r.storage ==> r.Priority(k) == if k == key then 0 else s.Priority(k)
  {
    assert s.OwnEntry(key);
    var lowered := SetPriority(s, key, 0);
    SameContents(s, lowered);
    LeastAtRoot(lowered);
    var root := lowered.policy[0];
    victim := lowered.memory[root].key;
    assert s.OwnEntry(key);
    assert MayLeave(s, key, lowered.policy) && Removes(s, key, lowered.policy, victim);
    r := RemoveTop(lowered, {});
    RemainingPriorities(lowered, root, r);
  }

  /** Inserts a new key or replaces the value of an old one. */
  method InsertOrOverwrite(s: Links, capacity: nat, key: string, value: Shared)
    returns (r: Links, ghost evicted: Option<string>)
    requires s.Ready({}) && |s.policy| <= capacity && capacity > 0
    ensures r.Ready({}) && |r.policy| <= capacity
    ensures evicted.Some? <==> key !in s.Contents() && |s.policy| == capacity
    ensures evicted.Some? ==> s.Least(evicted.value) && evicted.value != key
    ensures r.Contents() == Inserted(s.Contents(), evicted, key, value)
    ensures forall k :: k in r.storage ==> r.Priority(k) == if k == key then 1 else s.Priority(k)
  {
    var inserted;
    inserted, r, evicted := TryInsert(s, capacity, key, value);
    if !inserted {
      r := Overwrite(s, key, value);
    }
  }

  /** The priority of k after the given key was found, in 32 bits. */
  function CountedUp(s: Links, k: string, key: string): uint32
  {
    if k == key then (s.Priority(k) as int + 1) % 0x1_0000_0000 else s.Priority(k)
  }

  /** Looks a key up and counts the find. */
  method FindIn(s: Links, key: string) returns (r: Links, value: Option<Shared>)
    requires s.Ready({})
    ensures r.Ready({}) && |r.policy| == |s.policy| && r.storage == s.storage && r.Contents() == s.Contents()
    ensures value == if key in s.Contents() then Some(s.Contents()[key]) else None
    ensures value.None? ==> r == s
    ensures forall k :: k in r.storage ==> r.Priority(k) == CountedUp(s, k, key)
  {
    if key !in s.storage {
      return s, None;
    }
    assert s.OwnEntry(key);
    var priority: nat := s.memory[s.storage[key].cell.value].priority;
    r := SetPriority(s, key, (priority + 1) % 0x1_0000_0000);
    SameContents(s, r);
    return r, Some(s.storage[key].value);
  }

  lemma RemainingPriorities(s: Links, p: Pointer, r: Links)
    requires s.Linked({}) && r.Linked({}) && p in s.memory
    requires r.memory == s.memory - {p} && r.storage == s.storage - {s.memory[p].key}
    ensures r.Contents() == s.Contents() - {s.memory[p].key}
    ensures forall k :: k in r.storage ==> r.Priority(k) == s.Priority(k)
  {
    forall k | k in r.storage
      ensures r.Priority(k) == s.Priority(k)
    {
      assert s.OwnEntry(k) && r.OwnEntry(k);
    }
  }

  // ------------------------------------------------------------------ what erase may remove

  /** The cells after erase has set the priority of the key to 0. */
  ghost function Lowered(s: Links, key: string): map<Pointer, Cell>
    requires s.Linked({}) && key in s.storage
  {
    assert s.OwnEntry(key);
    s.memory[s.storage[key].cell.value := Cell(key, 0)]
  }

  /** A heap that std::make_heap may leave then; the standard does not say which. */
  ghost predicate MayLeave(s: Links, key: string, heap: seq<Pointer>)
    requires s.Linked({}) && key in s.storage
  {
    multiset(heap) == multiset(s.policy) && Heap(heap, Lowered(s, key))
  }

  /** The key whose cell would then be removed. */
  ghost predicate Removes(s: Links, key: string, heap: seq<Pointer>, victim: string)
    requires s.Linked({}) && key in s.storage
  {
    heap != [] && heap[0] in s.memory && s.memory[heap[0]].key == victim
  }

  /** The root of every such heap has priority 0: the key itself, or another one with that priority. */
  lemma RootAfterLowering(s: Links, key: string, heap: seq<Pointer>)
    requires s.Linked({}) && key in s.storage && MayLeave(s, key, heap)
    ensures heap != [] && heap[0] in s.memory
    ensures Removes(s, key, heap, key) || s.Priority(s.memory[heap[0]].key) == 0
  {
    var p, memory := s.storage[key].cell.value, Lowered(s, key);
    assert s.OwnEntry(key);
    HeapHoldsCells(s.policy, s.memory);
    assert memory.Keys == s.memory.Keys;
    HeapHoldsCells(heap, memory);
    assert p in heap;
    var j :| 0 <= j < |heap| && heap[j] == p;
    RootIsLeast(heap, memory, j);
    assert heap[0] in heap;
    assert s.OwnCell(heap[0]);
  }

  /** A key of priority 0 may be the one that is removed. */
  lemma MayRemoveOther(s: Links, key: string, k: string) returns (heap: seq<Pointer>)
    requires s.Linked({}) && key in s.storage && k in s.storage && k != key && s.Priority(k) == 0
    ensures MayLeave(s, key, heap) && Removes(s, key, heap, k)
  {
    var memory := Lowered(s, key);
    assert s.OwnEntry(key) && s.OwnEntry(k);
    var p := s.storage[k].cell.value;
    heap := SomeHeap(s.policy, memory);
    assert memory.Keys == s.memory.Keys;
    HeapHoldsCells(heap, memory);
    var j :| 0 <= j < |heap| && heap[j] == p;
    AnotherLeastRoot(heap, memory, j);
    heap := Swap(heap, 0, j);
  }

  /** Erasing a key removes that key in every case if and only if no other key has priority 0. */
  lemma ErasesKeyIff(s: Links, key: string)
    requires s.Linked({}) && key in s.storage
    ensures (forall heap :: MayLeave(s, key, heap) ==> Removes(s, key, heap, key))
       <==> (forall k :: k in s.storage && k != key ==> s.Priority(k) != 0)
  {
    if k :| k in s.storage && k != key && s.Priority(k) == 0 {
      var heap := MayRemoveOther(s, key, k);
      assert !Removes(s, key, heap, key);
    }
    if heap :| MayLeave(s, key, heap) && !Removes(s, key, heap, key) {
      RootAfterLowering(s, key, heap);
      assert s.OwnCell(heap[0]);
    }
  }

  /** In terms of the finds: no other key was found 2^32 - 1 times, or that many times and a multiple of 2^32 more. */
  lemma CountedErasesKeyIff(s: Links, finds: map<string, nat>, key: string)
    requires s.Linked({}) && key in s.storage && s.Counted(finds) && finds.Keys == s.storage.Keys
    ensures (forall heap :: MayLeave(s, key, heap) ==> Removes(s, key, heap, key))
       <==> (forall k :: k in finds && k != key ==> finds[k] % 0x1_0000_0000 != 0xFFFF_FFFF)
  {
    ErasesKeyIff(s, key);
    forall k | k in finds
      ensures s.Priority(k) == 0 <==> finds[k] % 0x1_0000_0000 == 0xFFFF_FFFF
    {
      assert s.Priority(k) == Wrapped(finds[k] + 1);
    }
  }

  /** A cache of two keys, of which the second one was found 2^32 - 1 times and has priority 0 again. */
  function FoundTooOften(a: string, b: string): Links
  {
    Links([1, 0], map[a := Entry(0, Some(0)), b := Entry(0, Some(1))], map[0 := Cell(a, 1), 1 := Cell(b, 0)])
  }

  lemma TwoLinked(s: Links, a: string, b: string)
    requires a != b && s == FoundTooOften(a, b)
    ensures s.Linked({})
  {
    assert multiset(s.policy) == multiset{0, 1};
    assert s.memory.Keys == {0, 1} && multiset(s.memory.Keys) == multiset{0, 1};
    assert s.OwnEntry(a) && s.OwnEntry(b) && s.OwnCell(0) && s.OwnCell(1);
  }

  lemma TwoInHeap(s: Links, a: string, b: string)
    requires s == FoundTooOften(a, b)
    ensures s.MinHeap()
  {
    assert Rank(s.memory, 1) == 0;
  }

  lemma TwoCounted(s: Links, a: string, b: string)
    requires a != b && s == FoundTooOften(a, b)
    ensures s.Priority(a) == 1 && s.Priority(b) == 0
    ensures s.Counted(map[a := 0, b := 0xFFFF_FFFF])
  {
  }

  /** Erasing the first one may remove the second. */
  lemma WrongKeyErased(a: string, b: string) returns (heap: seq<Pointer>)
    requires a != b
    ensures var s := FoundTooOften(a, b);
            && s.Ready({}) && s.Counted(map[a := 0, b := 0xFFFF_FFFF])
            && MayLeave(s, a, heap) && Removes(s, a, heap, b)
  {
    var s := FoundTooOften(a, b);
    TwoLinked(s, a, b);
    TwoInHeap(s, a, b);
    TwoCounted(s, a, b);
    heap := MayRemoveOther(s, a, b);
  }

  /** The same, with the ghost count of finds. */
  method FindCounted(s: Links, ghost finds: map<string, nat>, key: string) returns (r: Links, value: Option<Shared>)
    requires s.Ready({}) && finds.Keys == s.storage.Keys
    ensures r.Ready({}) && |r.policy| == |s.policy| && r.Contents() == s.Contents()
    ensures value == if key in s.Contents() then Some(s.Contents()[key]) else None
    ensures CountFind(finds, key).Keys == r.storage.Keys
    ensures s.Counted(finds) ==> r.Counted(CountFind(finds, key))
  {
    r, value := FindIn(s, key);
    CountedAfterFind(s, finds, key, value, r);
  }

  // ------------------------------------------------------------------ the cache

  class LfuCache {
    var links: Links
    var capacity: nat
    var accessCount: nat
    var hitCount: nat
    /** How often each key was found since it was inserted or last updated. */
    ghost var finds: map<string, nat>

    ghost predicate Valid()
      reads this
    {
      && links.Ready({})
      && |links.policy| <= capacity
      && finds.Keys == links.storage.Keys
    }

    ghost predicate Counted()
      reads this
    {
      links.Counted(finds)
    }

    ghost function Contents(): map<string, Shared>
      reads this
    {
      links.Contents()
    }

    function Size(): nat
      reads this
    {
      |links.policy|
    }

    constructor (capacity: nat)
      ensures Valid() && Counted() && Contents() == map[] && finds == map[] && this.capacity == capacity
      ensures accessCount == hitCount == 0
    {
      links, finds := Links([], map[], map[]), map[];
      this.capacity := capacity;
      accessCount, hitCount := 0, 0;
    }

    /** Returns whether the key was new. A full cache loses a key of least priority, never the new one. */
    method Insert(key: string, value: Shared) returns (inserted: bool, ghost evicted: Option<string>)
      requires Valid()
      modifies this`links, this`finds
      ensures Valid() && (old(Counted()) ==> Counted())
      ensures inserted <==> capacity > 0 && key !in old(Contents())
      ensures !inserted ==> links == old(links) && finds == old(finds)
      ensures inserted ==> (evicted.Some? <==> old(Size()) == capacity)
      ensures inserted && evicted.Some? ==> old(links).Least(evicted.value) && evicted.value != key
      ensures inserted ==> Contents() == Inserted(old(Contents()), evicted, key, value)
      ensures inserted ==> finds == Inserted(old(finds), evicted, key, 0)
    {
      if capacity == 0 {
        return false, None;
      }
      var s, r := links, links;
      inserted, r, evicted := TryInsert(s, capacity, key, value);
      if inserted {
        CountedAfterInsertion(s, finds, evicted, key, value, r);
        Replace(r, Inserted(finds, evicted, key, 0));
      }
    }

    /** Inserts, or overwrites the value and resets the priority. */
    method Update(key: string, value: Shared) returns (done: bool, ghost evicted: Option<string>)
      requires Valid()
      modifies this`links, this`finds
      ensures Valid() && (old(Counted()) ==> Counted())
      ensures done <==> capacity > 0
      ensures !done ==> links == old(links) && finds == old(finds)
      ensures done ==> (evicted.Some? <==> key !in old(Contents()) && old(Size()) == capacity)
      ensures done && evicted.Some? ==> old(links).Least(evicted.value) && evicted.value != key
      ensures done ==> Contents() == Inserted(old(Contents()), evicted, key, value)
      ensures done ==> finds == Inserted(old(finds), evicted, key, 0)
    {
      if capacity == 0 {
        return false, None;
      }
      var s := links;
      var r;
      r, evicted := InsertOrOverwrite(s, capacity, key, value);
      CountedAfterInsertion(s, finds, evicted, key, value, r);
      Replace(r, Inserted(finds, evicted, key, 0));
      return true, evicted;
    }

    method Find(key: string) returns (value: Option<Shared>)
      requires Valid()
      modifies this`links, this`finds, this`accessCount, this`hitCount
      ensures Valid() && (old(Counted()) ==> Counted()) && Contents() == old(Contents())
      ensures value == if key in old(Contents()) then Some(old(Contents()[key])) else None
      ensures finds == CountFind(old(finds), key)
      ensures accessCount == old(accessCount) + 1
      ensures hitCount == old(hitCount) + if value.Some? then 1 else 0
    {
      var s, r := links, links;
      r, value := FindCounted(s, finds, key);
      CountAccess(value.Some?);
      Replace(r, CountFind(finds, key));
    }

    method Replace(r: Links, ghost counts: map<string, nat>)
      requires r.Ready({}) && |r.policy| <= capacity && counts.Keys == r.storage.Keys
      modifies this`links, this`finds
      ensures Valid() && links == r && finds == counts
    {
      links, finds := r, counts;
    }

    method CountAccess(hit: bool)
      modifies this`accessCount, this`hitCount
      ensures accessCount == old(accessCount) + 1
      ensures hitCount == old(hitCount) + if hit then 1 else 0
    {
      accessCount, hitCount := accessCount + 1, hitCount + if hit then 1 else 0;
    }

    /**
     * Removes one key of least priority after that of the given key has been set to 0. That is the given
     * key unless the priority of another one has wrapped around to 0.
     */
    method Erase(key: string) returns (victim: string)
      requires Valid()
      modifies this`links, this`finds
      ensures Valid()
      ensures key !in old(Contents()) ==> links == old(links) && finds == old(finds)
      ensures key in old(Contents()) ==> victim in old(Contents())
      ensures victim == key || old(links).Priority(victim) == 0
      ensures key in old(Contents()) ==> exists heap :: MayLeave(old(links), key, heap) && Removes(old(links), key, heap, victim)
      ensures key in old(Contents()) ==> Contents() == old(Contents()) - {victim} && finds == old(finds) - {victim}
      ensures (key !in old(Contents()) || victim == key) && old(Counted()) ==> Counted()
    {
      var s := links;
      victim := key;
      if key in s.storage {
        var r;
        r, victim := EraseMinimum(s, key);
        CountedAfterErase(s, finds, key, victim, r);
        Replace(r, finds - {victim});
      }
    }

    method Reserve(capacity: nat)
      requires Valid()
      modifies this`capacity
      ensures Valid() && (old(Counted()) ==> Counted())
      ensures this.capacity == if capacity > old(this.capacity) then capacity else old(this.capacity)
    {
      if capacity > this.capacity {
        this.capacity := capacity;
      }
    }

    /** Frees every cell that an entry points at; no cell is left. */
    method Clear()
      requires Valid()
      modifies this`links, this`finds
      ensures Valid() && Counted() && links == Links([], map[], map[]) && finds == map[]
    {
      var s := links;
      var keys, memory := s.storage.Keys, s.memory;
      AllKeysOwned(s);
      while keys != {}
        invariant keys <= s.storage.Keys
        invariant forall p :: p in memory <==> p in s.memory && s.memory[p].key in keys
        decreases |keys|
      {
        var key :| key in keys;
        FreedWithKey(s, key);
        memory := memory - {s.storage[key].cell.value};
        keys := keys - {key};
      }
      links, finds := Links([], map[], memory), map[];
    }
  }

  lemma SameContents(a: Links, b: Links)
    requires a.storage == b.storage
    ensures a.Contents() == b.Contents()
  {
  }

  lemma InsertedKeys<U, W>(m: map<string, U>, n: map<string, W>, evicted: Option<string>, key: string, u: U, w: W)
    requires m.Keys == n.Keys
    ensures Inserted(m, evicted, key, u).Keys == Inserted(n, evicted, key, w).Keys
  {
  }

  lemma ContentsKeys(s: Links)
    ensures s.Contents().Keys == s.storage.Keys
  {
  }

  lemma CountedAfterInsertion(s: Links, finds: map<string, nat>, evicted: Option<string>, key: string, value: Shared,
                                 r: Links)
    requires finds.Keys == s.storage.Keys
    requires r.Contents() == Inserted(s.Contents(), evicted, key, value)
    requires forall k :: k in r.storage ==> r.Priority(k) == if k == key then 1 else s.Priority(k)
    ensures r.storage.Keys == Inserted(finds, evicted, key, 0).Keys
    ensures s.Counted(finds) ==> r.Counted(Inserted(finds, evicted, key, 0))
  {
    ContentsKeys(s);
    ContentsKeys(r);
    InsertedKeys(s.Contents(), finds, evicted, key, value, 0);
    CountedWithNewKey(s, finds, evicted, key, r);
  }

  lemma CountedWithNewKey(s: Links, finds: map<string, nat>, evicted: Option<string>, key: string, r: Links)
    requires finds.Keys == s.storage.Keys && r.storage.Keys == Inserted(finds, evicted, key, 0).Keys
    requires forall k :: k in r.storage ==> r.Priority(k) == if k == key then 1 else s.Priority(k)
    ensures s.Counted(finds) ==> r.Counted(Inserted(finds, evicted, key, 0))
  {
    var finds' := Inserted(finds, evicted, key, 0);
    if s.Counted(finds) {
      forall k | k in r.storage && k in finds'
        ensures r.Priority(k) == Wrapped(finds'[k] + 1)
      {
        assert k != key ==> k in s.storage && finds'[k] == finds[k];
      }
    }
  }

  ghost function CountFind(finds: map<string, nat>, key: string): map<string, nat>
  {
    if key in finds then finds[key := finds[key] + 1] else finds
  }

  lemma CountedAfterFind(s: Links, finds: map<string, nat>, key: string, value: Option<Shared>, r: Links)
    requires finds.Keys == s.storage.Keys == r.storage.Keys
    requires value.None? ==> r == s && key !in s.Contents()
    requires forall k :: k in r.storage ==> r.Priority(k) == CountedUp(s, k, key)
    ensures CountFind(finds, key).Keys == r.storage.Keys
    ensures s.Counted(finds) ==> r.Counted(CountFind(finds, key))
  {
    if key in finds { WrapNext(finds[key] + 1); }
  }

  lemma CountedAfterErase(s: Links, finds: map<string, nat>, key: string, victim: string, r: Links)
    requires finds.Keys == s.storage.Keys && r.Contents() == s.Contents() - {victim}
    requires forall k :: k in r.storage ==> r.Priority(k) == if k == key then 0 else s.Priority(k)
    ensures (finds - {victim}).Keys == r.storage.Keys
    ensures victim == key && s.Counted(finds) ==> r.Counted(finds - {victim})
  {
    ContentsKeys(s);
    ContentsKeys(r);
  }

  lemma AllKeysOwned(s: Links)
    requires s.Linked({})
    ensures forall p :: p in s.memory ==> s.memory[p].key in s.storage
  {
    forall p | p in s.memory
      ensures s.memory[p].key in s.storage
    {
      assert s.OwnCell(p);
    }
  }

  lemma FreedWithKey(s: Links, key: string)
    requires s.Linked({}) && key in s.storage
    ensures s.storage[key].cell.Some?
    ensures forall p :: p in s.memory ==> (s.memory[p].key == key <==> p == s.storage[key].cell.value)
  {
    assert s.OwnEntry(key);
    forall p | p in s.memory
      ensures s.memory[p].key == key <==> p == s.storage[key].cell.value
    {
      assert s.OwnCell(p);
    }
  }
}
