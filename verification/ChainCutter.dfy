/** src/netspeak/util/ChainCutter.hpp: all ways to cut a chain of a given length into cuts + 1 segments. */
module ChainCutters {
  import opened MachineInts
  import opened Combinatorics
  import opened Permutations
  import opened Sequences

  function Zeros(n: nat): (z: seq<nat>)
    ensures |z| == n && forall i :: 0 <= i < n ==> z[i] == 0
  {
    if n == 0 then [] else Zeros(n - 1) + [0]
  }

  function Ones(n: nat): (z: seq<nat>)
    ensures |z| == n && forall i :: 0 <= i < n ==> z[i] == 1
  {
    if n == 0 then [] else Ones(n - 1) + [1]
  }

  /** The last segment made longer. */
  function Longer(t: seq<nat>, n: nat): (u: seq<nat>)
    requires |t| > 0
    ensures |u| == |t|
  {
    t[|t| - 1 := t[|t| - 1] + n]
  }

  /** What one more element does to the segments. */
  function Grown(t: seq<nat>, x: nat): (u: seq<nat>)
    requires |t| > 0
    ensures |u| > 0
  {
    if x == 0 then Longer(t, 1) else t + [0]
  }

  /** The lengths of the runs of zeros between the other elements. */
  function Segments(state: seq<nat>): (t: seq<nat>)
    ensures |t| > 0
  {
    if state == [] then [0] else Grown(Segments(state[..|state| - 1]), state[|state| - 1])
  }

  /** A chain with n more links. */
  function Linked(s: seq<nat>, n: nat): seq<nat>
  {
    if n == 0 then s else Linked(s, n - 1) + [0]
  }

  /** The chain with the given segments: 0 for a link, 1 for a cut. */
  function Chain(t: seq<nat>): seq<nat>
    requires |t| > 0
  {
    if |t| == 1 then Linked([], t[0]) else Linked(Chain(t[..|t| - 1]) + [1], t[|t| - 1])
  }

  ghost predicate Binary(s: seq<nat>)
  {
    forall i :: 0 <= i < |s| ==> s[i] <= 1
  }

  /** t is a way to cut a chain of that length: cuts + 1 segments that sum up to it. */
  predicate IsCut(t: seq<nat>, cuts: nat, length: nat)
  {
    |t| == cuts + 1 && Sum(t) == length
  }

  /** A state of the iteration: a zero per link and a one per cut. */
  ghost predicate IsState(s: seq<nat>, cuts: nat, length: nat)
  {
    multiset(s) == multiset(Zeros(length) + Ones(cuts))
  }

  lemma SnocMultiset(s: seq<nat>)
    requires s != []
    ensures multiset(s) == multiset(s[..|s| - 1]) + multiset{s[|s| - 1]}
  {
    assert s == s[..|s| - 1] + [s[|s| - 1]];
  }

  lemma {:induction false} ZerosMultiset(n: nat, z: seq<nat>)
    requires z == Zeros(n)
    ensures multiset(z)[0] == n && forall x :: x != 0 ==> multiset(z)[x] == 0
  {
    if n > 0 {
      ZerosMultiset(n - 1, Zeros(n - 1));
    }
  }

  lemma {:induction false} OnesMultiset(n: nat, z: seq<nat>)
    requires z == Ones(n)
    ensures multiset(z)[1] == n && forall x :: x != 1 ==> multiset(z)[x] == 0
  {
    if n > 0 {
      OnesMultiset(n - 1, Ones(n - 1));
    }
  }

  lemma StartCounts(cuts: nat, length: nat)
    ensures var m := multiset(Zeros(length) + Ones(cuts));
            m[0] == length && m[1] == cuts && forall x: nat :: x > 1 ==> m[x] == 0
  {
    var z, o := Zeros(length), Ones(cuts);
    ZerosMultiset(length, z);
    OnesMultiset(cuts, o);
    var m := multiset(z + o);
    assert m == multiset(z) + multiset(o);
  }

  lemma BinaryCounts(s: seq<nat>)
    ensures Binary(s) <==> forall x: nat :: x > 1 ==> multiset(s)[x] == 0
  {
    if Binary(s) {
      forall x: nat | x > 1
        ensures multiset(s)[x] == 0
      {
        assert x !in s;
      }
    } else {
      var i :| 0 <= i < |s| && s[i] > 1;
      assert s[i] in multiset(s);
    }
  }

  lemma SameCounts(a: multiset<nat>, b: multiset<nat>)
    requires a[0] == b[0] && a[1] == b[1] && forall x: nat :: x > 1 ==> a[x] == 0 && b[x] == 0
    ensures a == b
  {
    forall x: nat
      ensures a[x] == b[x]
    {
      if x > 1 {
        assert a[x] == 0 && b[x] == 0;
      }
    }
  }

  lemma StateCounts(s: seq<nat>, cuts: nat, length: nat)
    ensures IsState(s, cuts, length) <==> Binary(s) && multiset(s)[0] == length && multiset(s)[1] == cuts
  {
    var m := multiset(Zeros(length) + Ones(cuts));
    StartCounts(cuts, length);
    BinaryCounts(s);
    if Binary(s) && multiset(s)[0] == length && multiset(s)[1] == cuts {
      SameCounts(multiset(s), m);
    }
  }

  /** Segments counts: one segment more than there are cuts, and all zeros are in some segment. */
  lemma {:induction false} SegmentsShape(s: seq<nat>)
    requires Binary(s)
    ensures |Segments(s)| == multiset(s)[1] + 1
    ensures Sum(Segments(s)) == multiset(s)[0]
  {
    if s != [] {
      SegmentsShape(s[..|s| - 1]);
      SnocMultiset(s);
      GrownShape(Segments(s[..|s| - 1]), s[|s| - 1]);
    }
  }

  lemma LongerParts(t: seq<nat>, n: nat)
    requires t != []
    ensures Longer(t, n)[..|t| - 1] == t[..|t| - 1] && Longer(t, n)[|t| - 1] == t[|t| - 1] + n
  {
  }

  lemma LongerTwice(t: seq<nat>, m: nat, n: nat)
    requires t != []
    ensures Longer(Longer(t, m), n) == Longer(t, m + n)
    ensures Longer(t, 0) == t
  {
  }

  lemma LongerSnoc(t: seq<nat>, n: nat)
    ensures Longer(t + [0], n) == t + [n]
  {
  }

  lemma GrownShape(t: seq<nat>, x: nat)
    requires t != []
    ensures |Grown(t, x)| == |t| + (if x == 0 then 0 else 1)
    ensures Sum(Grown(t, x)) == Sum(t) + (if x == 0 then 1 else 0)
  {
    InitOfSnoc(t, 0);
    LongerParts(t, 1);
  }

  lemma ChainOfLonger(t: seq<nat>)
    requires t != []
    ensures Chain(Grown(t, 0)) == Chain(t) + [0]
  {
    LongerParts(t, 1);
  }

  lemma {:induction false} ChainOfSegments(s: seq<nat>)
    requires Binary(s)
    ensures Chain(Segments(s)) == s
  {
    if s != [] {
      var front := s[..|s| - 1];
      ChainOfSegments(front);
      InitAndLast(s);
      if s[|s| - 1] == 0 {
        ChainOfLonger(Segments(front));
      } else {
        ChainOfMore(Segments(front));
      }
    }
  }

  lemma ChainOfMore(t: seq<nat>)
    requires t != []
    ensures Chain(Grown(t, 1)) == Chain(t) + [1]
  {
    InitOfSnoc(t, 0);
  }

  lemma SegmentsSnoc(s: seq<nat>, x: nat)
    ensures Segments(s + [x]) == Grown(Segments(s), x)
  {
    InitOfSnoc(s, x);
  }

  lemma {:induction false} SegmentsOfLinked(s: seq<nat>, n: nat)
    ensures Segments(Linked(s, n)) == Longer(Segments(s), n)
  {
    if n > 0 {
      SegmentsOfLinked(s, n - 1);
      SegmentsSnoc(Linked(s, n - 1), 0);
      LongerTwice(Segments(s), n - 1, 1);
    } else {
      LongerTwice(Segments(s), 0, 0);
    }
  }

  lemma {:induction false} LinkedBinary(s: seq<nat>, n: nat)
    requires Binary(s)
    ensures Binary(Linked(s, n))
  {
    if n > 0 {
      LinkedBinary(s, n - 1);
    }
  }

  lemma {:induction false} ChainBinary(t: seq<nat>)
    requires |t| > 0
    ensures Binary(Chain(t))
  {
    if |t| == 1 {
      LinkedBinary([], t[0]);
    } else {
      ChainBinary(t[..|t| - 1]);
      LinkedBinary(Chain(t[..|t| - 1]) + [1], t[|t| - 1]);
    }
  }

  lemma SegmentsOfLinks(n: nat)
    ensures Segments(Linked([], n)) == [n]
  {
    SegmentsOfLinked([], n);
    assert Longer([0], n) == [n];
  }

  lemma {:induction false} SegmentsOfChain(t: seq<nat>)
    requires |t| > 0
    ensures Segments(Chain(t)) == t
  {
    if |t| == 1 {
      SegmentsOfLinks(t[0]);
    } else {
      var front, n := t[..|t| - 1], t[|t| - 1];
      SegmentsOfChain(front);
      LongerChain(Chain(front), front, n);
      InitAndLast(t);
    }
  }

  lemma LongerChain(s: seq<nat>, front: seq<nat>, n: nat)
    requires Segments(s) == front
    ensures Segments(Linked(s + [1], n)) == front + [n]
  {
    SegmentsSnoc(s, 1);
    SegmentsOfLinked(s + [1], n);
    LongerSnoc(front, n);
  }

  /** States and cuts are in bijection. */
  lemma StateOfCut(t: seq<nat>, cuts: nat, length: nat)
    requires IsCut(t, cuts, length)
    ensures IsState(Chain(t), cuts, length) && Segments(Chain(t)) == t
  {
    SegmentsOfChain(t);
    ChainBinary(t);
    SegmentsShape(Chain(t));
    StateCounts(Chain(t), cuts, length);
  }

  lemma CutOfState(s: seq<nat>, cuts: nat, length: nat)
    requires IsState(s, cuts, length)
    ensures IsCut(Segments(s), cuts, length) && Chain(Segments(s)) == s && Binary(s)
  {
    StateCounts(s, cuts, length);
    SegmentsShape(s);
    ChainOfSegments(s);
  }

  // ---------------------------------------------------------------- counting the states

  function Prepend(x: nat, ss: seq<seq<nat>>): (r: seq<seq<nat>>)
    ensures |r| == |ss| && forall i :: 0 <= i < |ss| ==> r[i] == [x] + ss[i]
  {
    seq(|ss|, i requires 0 <= i < |ss| => [x] + ss[i])
  }

  /** Every state once, by its first element. */
  function AllStates(cuts: nat, length: nat): seq<seq<nat>>
    decreases cuts + length
  {
    if cuts == 0 && length == 0 then [[]]
    else
      (if length > 0 then Prepend(0, AllStates(cuts, length - 1)) else [])
      + (if cuts > 0 then Prepend(1, AllStates(cuts - 1, length)) else [])
  }

  lemma {:induction false} AllStatesCount(cuts: nat, length: nat)
    ensures |AllStates(cuts, length)| == Choose(cuts + length, cuts)
    decreases cuts + length
  {
    if cuts > 0 || length > 0 {
      if length > 0 {
        AllStatesCount(cuts, length - 1);
      }
      if cuts > 0 {
        AllStatesCount(cuts - 1, length);
      }
      CountStep(cuts, length);
    }
  }

  lemma CountStep(cuts: nat, length: nat)
    requires cuts > 0 || length > 0
    ensures Choose(cuts + length, cuts)
         == (if length > 0 then Choose(cuts + length - 1, cuts) else 0)
            + (if cuts > 0 then Choose(cuts - 1 + length, cuts - 1) else 0)
  {
    if length == 0 {
      ChooseTooMany(cuts - 1, cuts);
    }
  }

  lemma ConsCounts(s: seq<nat>)
    requires s != []
    ensures multiset(s)[0] == multiset(s[1..])[0] + (if s[0] == 0 then 1 else 0)
    ensures multiset(s)[1] == multiset(s[1..])[1] + (if s[0] == 1 then 1 else 0)
  {
    assert s == [s[0]] + s[1..];
    assert multiset(s) == multiset{s[0]} + multiset(s[1..]);
  }

  lemma {:induction false} AllStatesDistinct(cuts: nat, length: nat, all: seq<seq<nat>>)
    requires all == AllStates(cuts, length)
    ensures Distinct(all)
    decreases cuts + length
  {
    if cuts > 0 || length > 0 {
      var a := if length > 0 then AllStates(cuts, length - 1) else [];
      var b := if cuts > 0 then AllStates(cuts - 1, length) else [];
      if length > 0 { AllStatesDistinct(cuts, length - 1, a); }
      if cuts > 0 { AllStatesDistinct(cuts - 1, length, b); }
      AllStatesParts(cuts, length, a, b, all);
      PrependDistinct(0, a);
      PrependDistinct(1, b);
      PrependsDiffer(a, b);
    }
  }

  /** The states that start with a unit, and then those that start with a cut. */
  lemma AllStatesParts(cuts: nat, length: nat, a: seq<seq<nat>>, b: seq<seq<nat>>, all: seq<seq<nat>>)
    requires (cuts > 0 || length > 0) && all == AllStates(cuts, length)
    requires a == if length > 0 then AllStates(cuts, length - 1) else []
    requires b == if cuts > 0 then AllStates(cuts - 1, length) else []
    ensures all == Prepend(0, a) + Prepend(1, b)
  {
    if length == 0 { assert Prepend(0, a) == []; }
    if cuts == 0 { assert Prepend(1, b) == []; }
  }

  lemma PrependsDiffer(a: seq<seq<nat>>, b: seq<seq<nat>>)
    requires Distinct(Prepend(0, a)) && Distinct(Prepend(1, b))
    ensures Distinct(Prepend(0, a) + Prepend(1, b))
  {
    var p, q := Prepend(0, a), Prepend(1, b);
    forall i, j | 0 <= i < |p| && 0 <= j < |q|
      ensures p[i] != q[j]
    {
      assert p[i][0] == 0 && q[j][0] == 1;
    }
  }

  lemma PrependDistinct(x: nat, ss: seq<seq<nat>>)
    requires Distinct(ss)
    ensures Distinct(Prepend(x, ss))
  {
    var p := Prepend(x, ss);
    forall i, j | 0 <= i < j < |p|
      ensures p[i] != p[j]
    {
      assert p[i][1..] == ss[i] && p[j][1..] == ss[j];
    }
  }

  lemma {:induction false} AllStatesMember(cuts: nat, length: nat, s: seq<nat>, all: seq<seq<nat>>)
    requires all == AllStates(cuts, length)
    ensures s in all <==> Binary(s) && HasCounts(s, cuts, length)
    decreases cuts + length
  {
    if cuts == 0 && length == 0 {
      NoCounts(s);
    } else if s == [] {
      AllStatesNonempty(cuts, length);
    } else {
      var a := if length > 0 then AllStates(cuts, length - 1) else [];
      var b := if cuts > 0 then AllStates(cuts - 1, length) else [];
      var tail := s[1..];
      if length > 0 {
        AllStatesMember(cuts, length - 1, tail, a);
      }
      if cuts > 0 {
        AllStatesMember(cuts - 1, length, tail, b);
      }
      AllStatesSplit(cuts, length, s, a, b, all);
      MemberByTail(cuts, length, s, tail in a, tail in b);
    }
  }

  /** A state is one when its tail is one with one unit or one cut less. */
  lemma MemberByTail(cuts: nat, length: nat, s: seq<nat>, inA: bool, inB: bool)
    requires s != [] && (length == 0 ==> !inA) && (cuts == 0 ==> !inB)
    requires length > 0 ==> (inA <==> Binary(s[1..]) && HasCounts(s[1..], cuts, length - 1))
    requires cuts > 0 ==> (inB <==> Binary(s[1..]) && HasCounts(s[1..], cuts - 1, length))
    ensures (s[0] == 0 && inA) || (s[0] == 1 && inB) <==> Binary(s) && HasCounts(s, cuts, length)
  {
    HasCountsCons(s, cuts, length);
  }

  predicate HasCounts(s: seq<nat>, cuts: nat, length: nat)
  {
    multiset(s)[0] == length && multiset(s)[1] == cuts
  }

  lemma HasCountsCons(s: seq<nat>, cuts: nat, length: nat)
    requires s != []
    ensures s[0] == 0 ==> (Binary(s) && HasCounts(s, cuts, length) <==>
                             length > 0 && Binary(s[1..]) && HasCounts(s[1..], cuts, length - 1))
    ensures s[0] == 1 ==> (Binary(s) && HasCounts(s, cuts, length) <==>
                             cuts > 0 && Binary(s[1..]) && HasCounts(s[1..], cuts - 1, length))
    ensures s[0] > 1 ==> !Binary(s)
  {
    ConsCounts(s);
    ConsBinary(s);
  }

  lemma AllStatesSplit(cuts: nat, length: nat, s: seq<nat>, a: seq<seq<nat>>, b: seq<seq<nat>>, all: seq<seq<nat>>)
    requires (cuts > 0 || length > 0) && s != []
    requires a == if length > 0 then AllStates(cuts, length - 1) else []
    requires b == if cuts > 0 then AllStates(cuts - 1, length) else []
    requires all == AllStates(cuts, length)
    ensures s in all <==> (s[0] == 0 && s[1..] in a) || (s[0] == 1 && s[1..] in b)
  {
    AllStatesParts(cuts, length, a, b, all);
    PrependMember(0, a, s);
    PrependMember(1, b, s);
    AppendMember(Prepend(0, a), Prepend(1, b), s);
  }

  lemma AppendMember<T>(a: seq<T>, b: seq<T>, x: T)
    ensures x in a + b <==> x in a || x in b
  {
  }

  lemma ConsBinary(s: seq<nat>)
    requires s != []
    ensures Binary(s) <==> s[0] <= 1 && Binary(s[1..])
  {
    if Binary(s[1..]) {
      assert forall i :: 0 < i < |s| ==> s[i] == s[1..][i - 1];
    }
  }

  lemma NoCounts(s: seq<nat>)
    ensures Binary(s) && multiset(s)[0] == 0 && multiset(s)[1] == 0 <==> s == []
  {
    if s != [] {
      assert s[0] in multiset(s);
    }
  }

  lemma PrependMember(x: nat, ss: seq<seq<nat>>, s: seq<nat>)
    requires s != []
    ensures s in Prepend(x, ss) <==> s[0] == x && s[1..] in ss
  {
    if s in Prepend(x, ss) {
      var i :| 0 <= i < |ss| && Prepend(x, ss)[i] == s;
      assert s[1..] == ss[i];
    }
    if s[0] == x && s[1..] in ss {
      var i :| 0 <= i < |ss| && ss[i] == s[1..];
      assert Prepend(x, ss)[i] == [x] + s[1..] == s;
    }
  }

  lemma AllStatesNonempty(cuts: nat, length: nat)
    requires cuts > 0 || length > 0
    ensures [] !in AllStates(cuts, length)
  {
  }

  lemma SameLength<T>(a: seq<T>, b: seq<T>)
    requires Distinct(a) && Distinct(b)
    requires forall x :: x in a <==> x in b
    ensures |a| == |b|
  {
    DistinctSize(a);
    DistinctSize(b);
    assert (set x | x in a) == (set x | x in b);
  }

  lemma {:induction false} DistinctSize<T>(a: seq<T>)
    requires Distinct(a)
    ensures |set x | x in a| == |a|
  {
    if a != [] {
      DistinctSize(a[1..]);
      assert (set x | x in a) == {a[0]} + (set x | x in a[1..]);
    }
  }

  lemma StatesCount(visited: seq<seq<nat>>, cuts: nat, length: nat)
    requires Distinct(visited)
    requires forall s :: s in visited <==> IsState(s, cuts, length)
    ensures |visited| == Choose(cuts + length, cuts)
  {
    forall s
      ensures s in visited <==> s in AllStates(cuts, length)
    {
      StateCounts(s, cuts, length);
      AllStatesMember(cuts, length, s, AllStates(cuts, length));
    }
    AllStatesDistinct(cuts, length, AllStates(cuts, length));
    SameLength(visited, AllStates(cuts, length));
    AllStatesCount(cuts, length);
  }

  // ---------------------------------------------------------------- the iterator

  class ChainCutter {
    const cuts: nat
    const length: nat
    var state: seq<nat>
    var output: seq<nat>
    /** The states visited so far, this one included. */
    ghost var visited: seq<seq<nat>>

    ghost predicate Valid()
      reads this
    {
      && IsState(state, cuts, length)
      && output == Segments(state)
      && VisitedUpTo(visited, state)
    }

    method SetOutput()
      requires IsState(state, cuts, length) && |output| == cuts + 1
      modifies `output
      ensures output == Segments(state)
    {
      CutOfState(state, cuts, length);
      var i: nat, sum: nat := 0, 0;
      for k := 0 to |state|
        invariant |output| == cuts + 1
        invariant IsPrefixOutput(state[..k], output, i, sum)
      {
        TakeNext(state, k);
        SegmentsGrow(state, k + 1);
        OutputStep(state[..k], state[k], output, i, sum);
        if state[k] == 0 {
          sum := sum + 1;
        } else {
          output := output[i := sum];
          i := i + 1;
          sum := 0;
        }
      }
      assert state[..|state|] == state;
      PutSegment(output, i, sum);
      output := output[i := sum];
    }

    constructor (cuts: nat, length: nat)
      ensures Valid() && this.cuts == cuts && this.length == length
      ensures visited == [state]
    {
      this.cuts := cuts;
      this.length := length;
      state := [];
      output := [];
      visited := [];
      new;
      for i := 0 to length
        invariant state == Zeros(i) && output == []
      {
        state := state + [0];
      }
      for i := 0 to cuts
        invariant state == Zeros(length) + Ones(i) && output == []
      {
        state := state + [1];
      }
      for i := 0 to cuts + 1
        invariant |output| == i && state == Zeros(length) + Ones(cuts)
      {
        output := output + [0];
      }
      SetOutput();
      visited := [state];
      StartVisiting(state);
    }

    /** `size`: the number of cuts there are, exactly when the last product of `binomial` fits into 64 bits. */
    method Size() returns (n: nat)
      ensures n == Choose(cuts + length, cuts)
         <==> (if length < cuts then length else cuts) * Choose(cuts + length, cuts) < TWO_64
    {
      var k := if length < cuts then length else cuts;
      BinomialExactIff(cuts + length, k, TWO_64);
      ChooseSymmetric(cuts + length, cuts);
      n := Binomial(cuts + length, k, TWO_64);
    }

    /** `next`: moves to the next cut. When it reports that there is none, every cut has been visited exactly once. */
    method Next() returns (more: bool)
      requires Valid()
      modifies this
      ensures more ==> Valid() && visited == old(visited) + [state] && Number(state, 2) > old(Number(state, 2))
      ensures IsState(state, cuts, length) && output == Segments(state)
      ensures !more ==> visited == old(visited) && VisitedAll(visited, cuts, length)
    {
      ghost var before, seen := state, visited;
      CutOfState(before, cuts, length);
      var after;
      more, after := NextPermutation(state);
      CutOfState(after, cuts, length);
      if more {
        Advanced(seen, before, after);
      } else {
        Exhausted(seen, before, cuts, length);
      }
      state := after;
      SetOutput();
      visited := if more then seen + [after] else seen;
    }
  }

  lemma PutSegment(output: seq<nat>, i: nat, sum: nat)
    requires i < |output|
    ensures output[i := sum][..i + 1] == output[..i] + [sum]
    ensures i == |output| - 1 ==> output[i := sum] == output[..i] + [sum]
  {
  }

  /** The first i entries of the output and the running sum are the segments of the part read so far. */
  ghost predicate IsPrefixOutput(read: seq<nat>, output: seq<nat>, i: nat, sum: nat)
  {
    i < |output| && output[..i] + [sum] == Segments(read)
  }

  lemma OutputStep(read: seq<nat>, x: nat, output: seq<nat>, i: nat, sum: nat)
    requires IsPrefixOutput(read, output, i, sum)
    requires |Segments(read + [x])| <= |output|
    ensures x == 0 ==> IsPrefixOutput(read + [x], output, i, sum + 1)
    ensures x != 0 ==> IsPrefixOutput(read + [x], output[i := sum], i + 1, 0)
  {
    var t := Segments(read);
    SegmentsSnoc(read, x);
    assert t[..|t| - 1] == output[..i];
    PutSegment(output, i, sum);
  }

  lemma Advanced(visited: seq<seq<nat>>, before: seq<nat>, after: seq<nat>)
    requires VisitedUpTo(visited, before) && IsSuccessor(before, after)
    requires Binary(before) && Binary(after)
    ensures VisitedUpTo(visited + [after], after)
    ensures Number(before, 2) < Number(after, 2)
  {
    KeepVisiting(visited, before, after);
    LexNumber(before, after, 2);
  }

  lemma Exhausted(visited: seq<seq<nat>>, last: seq<nat>, cuts: nat, length: nat)
    requires VisitedUpTo(visited, last) && IsLast(last) && IsState(last, cuts, length)
    ensures VisitedAll(visited, cuts, length)
  {
    DoneVisiting(visited, last);
    StatesCount(visited, cuts, length);
  }

  /** Every state exactly once. */
  ghost predicate VisitedAll(visited: seq<seq<nat>>, cuts: nat, length: nat)
  {
    && Distinct(visited)
    && (forall s :: s in visited <==> IsState(s, cuts, length))
    && |visited| == Choose(cuts + length, cuts)
  }

  lemma SegmentsGrow(s: seq<nat>, k: nat)
    requires k <= |s|
    ensures |Segments(s[..k])| <= |Segments(s)|
    decreases |s| - k
  {
    if k < |s| {
      SegmentsGrow(s, k + 1);
      assert s[..k + 1][..k] == s[..k];
    } else {
      assert s[..k] == s;
    }
  }

  /** The segments seen over a whole iteration: each cut exactly once. */
  function AllSegments(visited: seq<seq<nat>>): seq<seq<nat>>
  {
    if visited == [] then [] else AllSegments(visited[..|visited| - 1]) + [Segments(visited[|visited| - 1])]
  }

  lemma {:induction false} AllSegmentsAt(visited: seq<seq<nat>>)
    ensures |AllSegments(visited)| == |visited|
    ensures forall i :: 0 <= i < |visited| ==> AllSegments(visited)[i] == Segments(visited[i])
  {
    if visited != [] {
      AllSegmentsAt(visited[..|visited| - 1]);
    }
  }

  /** The cutter visits every tuple of cuts + 1 naturals that sums up to length exactly once,
      and there are "cuts + length choose cuts" of them. */
  lemma EveryCutOnce(visited: seq<seq<nat>>, cuts: nat, length: nat)
    requires VisitedAll(visited, cuts, length)
    ensures Distinct(AllSegments(visited))
    ensures forall t :: t in AllSegments(visited) <==> IsCut(t, cuts, length)
    ensures |AllSegments(visited)| == Choose(cuts + length, cuts)
  {
    AllSegmentsAt(visited);
    var all := AllSegments(visited);
    forall i | 0 <= i < |visited|
      ensures IsCut(all[i], cuts, length) && Chain(all[i]) == visited[i]
    {
      assert visited[i] in visited;
      CutOfState(visited[i], cuts, length);
    }
    forall t | IsCut(t, cuts, length)
      ensures t in all
    {
      StateOfCut(t, cuts, length);
      var i :| 0 <= i < |visited| && visited[i] == Chain(t);
      assert all[i] == t;
    }
  }
}
