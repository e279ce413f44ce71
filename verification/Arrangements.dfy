/** All orders of a list in lexicographic order: what a run of std::next_permutation goes through. */
module Arrangements {
  import opened Combinatorics
  import opened Permutations
  import opened ChainCutters
  import opened Sequences

  ghost predicate InLexOrder(v: seq<seq<nat>>)
  {
    forall i, j :: 0 <= i < j < |v| ==> Lex(v[i], v[j])
  }

  /** The orders of the items: those that start with the first item, then those that start with the second, ... */
  function Arranged(items: seq<nat>): seq<seq<nat>>
    decreases |items|, |items| + 1
  {
    if items == [] then [[]] else StartingWith(items, |items|)
  }

  /** The orders that start with one of the first k items. */
  function StartingWith(items: seq<nat>, k: nat): seq<seq<nat>>
    requires k <= |items|
    decreases |items|, k
  {
    if k == 0 then [] else StartingWith(items, k - 1) + Prepend(items[k - 1], Arranged(Without(items, k - 1)))
  }

  function Without(items: seq<nat>, i: nat): (r: seq<nat>)
    requires i < |items|
    ensures |r| == |items| - 1
  {
    items[..i] + items[i + 1..]
  }

  // ---------------------------------------------------------------- each order is there

  ghost predicate StartsWithItem(t: seq<nat>, items: seq<nat>, i: nat)
  {
    i < |items| && t != [] && t[0] == items[i] && Permutes(t[1..], Without(items, i))
  }

  lemma PrependHas(x: nat, ss: seq<seq<nat>>, t: seq<nat>)
    ensures t in Prepend(x, ss) <==> t != [] && t[0] == x && t[1..] in ss
  {
    var r := Prepend(x, ss);
    if t in r {
      var i :| 0 <= i < |r| && r[i] == t;
      assert r[i] == [x] + ss[i];
      assert t[1..] == ss[i];
    }
    if t != [] && t[0] == x && t[1..] in ss {
      var i :| 0 <= i < |ss| && ss[i] == t[1..];
      HeadAndTail(t);
      assert r[i] == t;
    }
  }

  lemma {:induction false} StartingWithHas(items: seq<nat>, k: nat, t: seq<nat>)
    requires k <= |items|
    ensures t in StartingWith(items, k) <==> exists i: nat :: i < k && StartsWithItem(t, items, i)
    decreases |items|, k
  {
    if k > 0 {
      StartingWithHas(items, k - 1, t);
      PrependHas(items[k - 1], Arranged(Without(items, k - 1)), t);
      if t != [] {
        ArrangedHas(Without(items, k - 1), t[1..]);
      }
      assert t in StartingWith(items, k) <==> t in StartingWith(items, k - 1) || StartsWithItem(t, items, k - 1);
    }
  }

  /** Exactly the permutations are listed. */
  lemma {:induction false} ArrangedHas(items: seq<nat>, t: seq<nat>)
    ensures t in Arranged(items) <==> Permutes(t, items)
    decreases |items|, |items| + 1
  {
    if items == [] {
      if Permutes(t, items) { PermutesLength(t, items); }
    } else {
      StartingWithHas(items, |items|, t);
      if i: nat :| i < |items| && StartsWithItem(t, items, i) {
        PutBack(items, i);
        HeadAndTail(t);
      }
      if Permutes(t, items) {
        PermutesLength(t, items);
        var i := TakeOut(t, items);
        assert StartsWithItem(t, items, i);
      }
    }
  }

  // ---------------------------------------------------------------- n! of them

  lemma OneMore(k: nat, f: nat)
    ensures (k - 1) * f + f == k * f
  {
  }

  lemma {:induction false} StartingWithCount(items: seq<nat>, k: nat, f: nat)
    requires k <= |items| && forall i :: 0 <= i < |items| ==> |Arranged(Without(items, i))| == f
    ensures |StartingWith(items, k)| == k * f
    decreases k
  {
    if k > 0 {
      StartingWithCount(items, k - 1, f);
      OneMore(k, f);
    }
  }

  lemma {:induction false} ArrangedCount(items: seq<nat>)
    ensures |Arranged(items)| == Fact(|items|)
    decreases |items|
  {
    if items != [] {
      forall i | 0 <= i < |items|
        ensures |Arranged(Without(items, i))| == Fact(|items| - 1)
      {
        ArrangedCount(Without(items, i));
      }
      StartingWithCount(items, |items|, Fact(|items| - 1));
    }
  }

  // ---------------------------------------------------------------- in lexicographic order

  ghost predicate Increasing(s: seq<nat>)
  {
    forall i, j :: 0 <= i < j < |s| ==> s[i] < s[j]
  }

  lemma PrependInLexOrder(x: nat, ss: seq<seq<nat>>)
    requires InLexOrder(ss)
    ensures InLexOrder(Prepend(x, ss))
  {
    var r := Prepend(x, ss);
    forall i, j | 0 <= i < j < |r|
      ensures Lex(r[i], r[j])
    {
      LexPrepend(x, ss[i], ss[j]);
    }
  }

  lemma LexPrepend(x: nat, a: seq<nat>, b: seq<nat>)
    requires Lex(a, b)
    ensures Lex([x] + a, [x] + b)
  {
    var k: nat :| LexAt(a, b, k);
    assert ([x] + a)[..k + 1] == [x] + a[..k] && ([x] + b)[..k + 1] == [x] + b[..k];
    assert LexAt([x] + a, [x] + b, k + 1);
  }

  lemma AppendInLexOrder(a: seq<seq<nat>>, b: seq<seq<nat>>)
    requires InLexOrder(a) && InLexOrder(b) && forall s, t :: s in a && t in b ==> Lex(s, t)
    ensures InLexOrder(a + b)
  {
  }

  lemma {:induction false} StartingWithInLexOrder(items: seq<nat>, k: nat)
    requires k <= |items| && Increasing(items)
    ensures InLexOrder(StartingWith(items, k))
    decreases |items|, k
  {
    if k > 0 {
      StartingWithInLexOrder(items, k - 1);
      ArrangedInLexOrder(Without(items, k - 1));
      var before, last := StartingWith(items, k - 1), Prepend(items[k - 1], Arranged(Without(items, k - 1)));
      PrependInLexOrder(items[k - 1], Arranged(Without(items, k - 1)));
      forall s, t | s in before && t in last
        ensures Lex(s, t)
      {
        SmallerStart(items, k, s, t);
      }
      AppendInLexOrder(before, last);
    }
  }

  lemma SmallerStart(items: seq<nat>, k: nat, s: seq<nat>, t: seq<nat>)
    requires 0 < k <= |items| && Increasing(items)
    requires s in StartingWith(items, k - 1) && t in Prepend(items[k - 1], Arranged(Without(items, k - 1)))
    ensures Lex(s, t)
  {
    StartingWithHas(items, k - 1, s);
    var i: nat :| i < k - 1 && StartsWithItem(s, items, i);
    PrependHas(items[k - 1], Arranged(Without(items, k - 1)), t);
    ArrangedHas(Without(items, k - 1), t[1..]);
    PermutesLength(s[1..], Without(items, i));
    PermutesLength(t[1..], Without(items, k - 1));
    assert LexAt(s, t, 0);
  }

  lemma {:induction false} ArrangedInLexOrder(items: seq<nat>)
    requires Increasing(items)
    ensures InLexOrder(Arranged(items))
    decreases |items|, |items| + 1
  {
    if items != [] {
      StartingWithInLexOrder(items, |items|);
    }
  }

  // ---------------------------------------------------------------- a list in lexicographic order is fixed by its members

  lemma LexIrreflexive(s: seq<nat>)
    ensures !Lex(s, s)
  {
  }

  lemma SameFirst(v: seq<seq<nat>>, w: seq<seq<nat>>)
    requires InLexOrder(v) && InLexOrder(w) && v != [] && w != [] && v[0] in w && w[0] in v
    ensures v[0] == w[0]
  {
    if v[0] != w[0] {
      var i, j :| 0 <= i < |v| && v[i] == w[0] && 0 <= j < |w| && w[j] == v[0];
      assert Lex(v[0], v[i]) && Lex(w[0], w[j]);
      LexAsymmetric(v[0], w[0]);
    }
  }

  lemma RestHas(v: seq<seq<nat>>, t: seq<nat>)
    requires InLexOrder(v) && v != []
    ensures t in v[1..] <==> t in v && t != v[0]
  {
    HeadAndTail(v);
    if t in v[1..] {
      var i :| 0 <= i < |v[1..]| && v[1..][i] == t;
      assert Lex(v[0], v[i + 1]);
      LexIrreflexive(t);
    }
  }

  lemma FirstIsMember(v: seq<seq<nat>>)
    ensures v != [] ==> v[0] in v
  {
  }

  lemma {:induction false} LexOrderUnique(v: seq<seq<nat>>, w: seq<seq<nat>>)
    requires InLexOrder(v) && InLexOrder(w) && forall t :: t in v <==> t in w
    ensures v == w
  {
    FirstIsMember(v);
    FirstIsMember(w);
    if v != [] && w != [] {
      SameFirst(v, w);
      forall t
        ensures t in v[1..] <==> t in w[1..]
      {
        RestHas(v, t);
        RestHas(w, t);
      }
      LexOrderUnique(v[1..], w[1..]);
      HeadAndTail(v);
      HeadAndTail(w);
    }
  }

  /** One more step keeps the visited ones in lexicographic order. */
  lemma VisitNext(visited: seq<seq<nat>>, cur: seq<nat>, next: seq<nat>)
    requires InLexOrder(visited) && VisitedUpTo(visited, cur) && Lex(cur, next)
    ensures InLexOrder(visited + [next])
  {
    forall t | t in visited
      ensures Lex(t, next)
    {
      if t != cur { LexTransitive(t, cur, next); }
    }
    AppendInLexOrder(visited, [next]);
  }

  /** A full run of std::next_permutation from increasing items visits what is listed here, in the same order. */
  lemma RunIsArranged(visited: seq<seq<nat>>, items: seq<nat>)
    requires Increasing(items) && InLexOrder(visited)
    requires forall t {:trigger t in visited} :: t in visited <==> Permutes(t, items)
    ensures visited == Arranged(items)
  {
    forall t
      ensures t in visited <==> t in Arranged(items)
    {
      ArrangedHas(items, t);
    }
    ArrangedInLexOrder(items);
    LexOrderUnique(visited, Arranged(items));
  }
}
