/**
 * Binary heaps of pointers to cells, least priority first: what the program takes from std::make_heap,
 * push_heap and pop_heap with its comparison.
 */
module Heaps {
  import opened MachineInts
  import opened Sequences

  type Pointer = nat

  /** key_priority_pair. */
  datatype Cell = Cell(key: string, priority: uint32)

  function Rank(memory: map<Pointer, Cell>, p: Pointer): nat
  {
    if p in memory then memory[p].priority else 0
  }

  function Parent(j: nat): nat
    requires j > 0
  {
    (j - 1) / 2
  }

  ghost predicate Ordered(s: seq<Pointer>, memory: map<Pointer, Cell>, j: nat)
    requires 0 < j < |s|
  {
    Rank(memory, s[Parent(j)]) <= Rank(memory, s[j])
  }

  /** Every element from position lo on is not above its children. */
  ghost predicate HeapFrom(s: seq<Pointer>, memory: map<Pointer, Cell>, lo: nat)
  {
    forall j :: 0 < j < |s| && Parent(j) >= lo ==> Ordered(s, memory, j)
  }

  ghost predicate Heap(s: seq<Pointer>, memory: map<Pointer, Cell>)
  {
    HeapFrom(s, memory, 0)
  }

  lemma {:induction false} RootIsLeast(s: seq<Pointer>, memory: map<Pointer, Cell>, j: nat)
    requires Heap(s, memory) && j < |s|
    ensures Rank(memory, s[0]) <= Rank(memory, s[j])
  {
    if j > 0 {
      RootIsLeast(s, memory, Parent(j));
      assert Ordered(s, memory, j);
    }
  }

  function Swap(s: seq<Pointer>, i: nat, j: nat): seq<Pointer>
    requires i < |s| && j < |s|
  {
    s[i := s[j]][j := s[i]]
  }

  /** Which of several elements of least rank is at the root is open: an exchange of two of them gives a heap again. */
  lemma AnotherLeastRoot(s: seq<Pointer>, memory: map<Pointer, Cell>, k: nat)
    requires Heap(s, memory) && k < |s| && Rank(memory, s[k]) == 0
    ensures var t := Swap(s, 0, k); Heap(t, memory) && multiset(t) == multiset(s) && t[0] == s[k]
  {
    RootIsLeast(s, memory, k);
    var t := Swap(s, 0, k);
    SwapPermutes(s, 0, k);
    forall j | 0 < j < |t| && Parent(j) >= 0
      ensures Ordered(t, memory, j)
    {
      assert Ordered(s, memory, j);
      assert Rank(memory, t[j]) == Rank(memory, s[j]) && Rank(memory, t[Parent(j)]) == Rank(memory, s[Parent(j)]);
    }
  }

  ghost predicate Ranked(s: seq<Pointer>, memory: map<Pointer, Cell>)
  {
    forall i, j :: 0 <= i < j < |s| ==> Rank(memory, s[i]) <= Rank(memory, s[j])
  }

  lemma RankedSnoc(s: seq<Pointer>, memory: map<Pointer, Cell>, p: Pointer)
    requires Ranked(s, memory) && forall q :: q in s ==> Rank(memory, q) <= Rank(memory, p)
    ensures Ranked(s + [p], memory)
  {
  }

  lemma {:induction false} InsertRanked(s: seq<Pointer>, memory: map<Pointer, Cell>, p: Pointer) returns (r: seq<Pointer>)
    requires Ranked(s, memory)
    ensures Ranked(r, memory) && multiset(r) == multiset(s) + multiset{p}
  {
    if s != [] && Rank(memory, p) < Rank(memory, s[|s| - 1]) {
      var front, last := s[..|s| - 1], s[|s| - 1];
      InitAndLast(s);
      var inserted := InsertRanked(front, memory, p);
      forall q | q in inserted
        ensures Rank(memory, q) <= Rank(memory, last)
      {
        assert q in multiset(inserted);
      }
      RankedSnoc(inserted, memory, last);
      r := inserted + [last];
      assert multiset(s) == multiset(front) + multiset{last};
    } else {
      RankedSnoc(s, memory, p);
      r := s + [p];
    }
  }

  /** There is always some heap of the pointers. */
  lemma {:induction false} SomeHeap(s: seq<Pointer>, memory: map<Pointer, Cell>) returns (r: seq<Pointer>)
    ensures Ranked(r, memory) && Heap(r, memory) && multiset(r) == multiset(s)
  {
    r := [];
    if s != [] {
      var front := SomeHeap(s[..|s| - 1], memory);
      r := InsertRanked(front, memory, s[|s| - 1]);
      InitAndLast(s);
    }
  }

  lemma SwapPermutes(s: seq<Pointer>, i: nat, j: nat)
    requires i < |s| && j < |s|
    ensures multiset(Swap(s, i, j)) == multiset(s)
  {
  }

  /** A heap from lo on but for the element at i, which may be above its children. */
  ghost predicate HeapBut(s: seq<Pointer>, memory: map<Pointer, Cell>, lo: nat, i: nat)
  {
    && (forall j :: 0 < j < |s| && Parent(j) >= lo && Parent(j) != i ==> Ordered(s, memory, j))
    && (forall j :: 0 < j < |s| && Parent(j) == i && i > 0 && Parent(i) >= lo ==> Rank(memory, s[Parent(i)]) <= Rank(memory, s[j]))
  }

  /** The child of i that may take its place, a least one. */
  ghost predicate LeastChild(s: seq<Pointer>, memory: map<Pointer, Cell>, i: nat, c: nat)
  {
    && (c == 2 * i + 1 || c == 2 * i + 2) && c < |s|
    && Rank(memory, s[c]) <= Rank(memory, s[2 * i + 1])
    && (2 * i + 2 < |s| ==> Rank(memory, s[c]) <= Rank(memory, s[2 * i + 2]))
  }

  lemma Settled(s: seq<Pointer>, memory: map<Pointer, Cell>, lo: nat, i: nat)
    requires HeapBut(s, memory, lo, i)
    requires i < |s| && (2 * i + 1 < |s| ==> Rank(memory, s[i]) <= Rank(memory, s[2 * i + 1]))
    requires 2 * i + 2 < |s| ==> Rank(memory, s[i]) <= Rank(memory, s[2 * i + 2])
    ensures HeapFrom(s, memory, lo)
  {
    forall j | 0 < j < |s| && Parent(j) >= lo
      ensures Ordered(s, memory, j)
    {
      if Parent(j) == i { assert j == 2 * i + 1 || j == 2 * i + 2; }
    }
  }

  method SiftDown(s: seq<Pointer>, memory: map<Pointer, Cell>, lo: nat) returns (r: seq<Pointer>)
    requires HeapFrom(s, memory, lo + 1) && lo < |s|
    ensures HeapFrom(r, memory, lo)
    ensures multiset(r) == multiset(s) && |r| == |s|
  {
    r := s;
    var i := lo;
    while 2 * i + 1 < |r|
      invariant lo <= i < |r| == |s|
      invariant multiset(r) == multiset(s)
      invariant HeapBut(r, memory, lo, i)
      decreases |s| - i
    {
      var c := 2 * i + 1;
      if c + 1 < |r| && Rank(memory, r[c + 1]) < Rank(memory, r[c]) {
        c := c + 1;
      }
      assert LeastChild(r, memory, i, c);
      if Rank(memory, r[i]) <= Rank(memory, r[c]) {
        break;
      }
      SwapPermutes(r, i, c);
      SwapDown(r, memory, lo, i, c);
      r := Swap(r, i, c);
      i := c;
    }
    Settled(r, memory, lo, i);
  }

  lemma SwapDown(s: seq<Pointer>, memory: map<Pointer, Cell>, lo: nat, i: nat, c: nat)
    requires HeapBut(s, memory, lo, i) && lo <= i < |s|
    requires LeastChild(s, memory, i, c) && Rank(memory, s[c]) < Rank(memory, s[i])
    ensures HeapBut(Swap(s, i, c), memory, lo, c)
  {
    var t := Swap(s, i, c);
    forall j | 0 < j < |t| && Parent(j) >= lo && Parent(j) != c
      ensures Ordered(t, memory, j)
    {
      if Parent(j) == i { assert j == 2 * i + 1 || j == 2 * i + 2; }
      if j != i && Parent(j) != i { assert Ordered(s, memory, j); }
    }
    forall j | 0 < j < |t| && Parent(j) == c
      ensures Rank(memory, t[Parent(c)]) <= Rank(memory, t[j])
    {
      assert Ordered(s, memory, j);
    }
  }

  method MakeHeap(s: seq<Pointer>, memory: map<Pointer, Cell>) returns (r: seq<Pointer>)
    ensures Heap(r, memory)
    ensures multiset(r) == multiset(s) && |r| == |s|
  {
    r := s;
    var lo: nat := |s| / 2;
    while lo > 0
      invariant multiset(r) == multiset(s) && |r| == |s| && lo <= |s| / 2
      invariant HeapFrom(r, memory, lo)
    {
      lo := lo - 1;
      r := SiftDown(r, memory, lo);
    }
  }

  /** A heap but for the element at i, which may be below its parent. */
  ghost predicate HeapButUp(s: seq<Pointer>, memory: map<Pointer, Cell>, i: nat)
  {
    && (forall j :: 0 < j < |s| && j != i ==> Ordered(s, memory, j))
    && (forall j :: 0 < j < |s| && i > 0 && Parent(j) == i ==> Rank(memory, s[Parent(i)]) <= Rank(memory, s[j]))
  }

  lemma SwapUp(s: seq<Pointer>, memory: map<Pointer, Cell>, i: nat)
    requires HeapButUp(s, memory, i) && 0 < i < |s| && Rank(memory, s[i]) < Rank(memory, s[Parent(i)])
    ensures HeapButUp(Swap(s, i, Parent(i)), memory, Parent(i))
  {
    var p := Parent(i);
    var t := Swap(s, i, p);
    forall j | 0 < j < |t| && j != p
      ensures Ordered(t, memory, j)
    {
      if j != i { assert Ordered(s, memory, j); }
    }
    if p > 0 { assert Ordered(s, memory, p); }
    forall j | 0 < j < |t| && p > 0 && Parent(j) == p
      ensures Rank(memory, t[Parent(p)]) <= Rank(memory, t[j])
    {
      if j != i { assert Ordered(s, memory, j); }
    }
  }

  /** All but the last element form a heap already. */
  method PushHeap(s: seq<Pointer>, memory: map<Pointer, Cell>) returns (r: seq<Pointer>)
    requires s != [] && Heap(s[..|s| - 1], memory)
    ensures Heap(r, memory)
    ensures multiset(r) == multiset(s) && |r| == |s|
  {
    r := s;
    var i: nat := |s| - 1;
    assert HeapButUp(r, memory, i) by {
      forall j | 0 < j < |s| && j != i
        ensures Ordered(s, memory, j)
      {
        assert Ordered(s[..|s| - 1], memory, j);
      }
    }
    while i > 0 && Rank(memory, r[i]) < Rank(memory, r[Parent(i)])
      invariant i < |r| == |s| && multiset(r) == multiset(s)
      invariant HeapButUp(r, memory, i)
    {
      SwapPermutes(r, i, Parent(i));
      SwapUp(r, memory, i);
      r := Swap(r, i, Parent(i));
      i := Parent(i);
    }
    assert i > 0 ==> Ordered(r, memory, i);
  }

  /** Moves the root to the end and makes a heap of the rest. */
  method PopHeap(s: seq<Pointer>, memory: map<Pointer, Cell>) returns (r: seq<Pointer>)
    requires s != [] && Heap(s, memory)
    ensures multiset(r) == multiset(s) && |r| == |s|
    ensures r[|s| - 1] == s[0] && Heap(r[..|s| - 1], memory)
  {
    var last := |s| - 1;
    if last == 0 {
      return s;
    }
    var t := Swap(s, 0, last);
    SwapPermutes(s, 0, last);
    var front := t[..last];
    forall j | 0 < j < last && Parent(j) >= 1
      ensures Ordered(front, memory, j)
    {
      assert Ordered(s, memory, j);
    }
    var sifted := SiftDown(front, memory, 0);
    r := sifted + [t[last]];
    assert t == front + [t[last]];
    assert r[..last] == sifted;
  }
}
