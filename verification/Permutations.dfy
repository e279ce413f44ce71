/** std::next_permutation, which drives both the chain cutter and the expansion of order sets. */
module Permutations {
  import opened Combinatorics

  ghost predicate LexAt(a: seq<nat>, b: seq<nat>, k: nat)
  {
    k < |a| && |a| == |b| && a[..k] == b[..k] && a[k] < b[k]
  }

  /** a comes before b in the lexicographic order of sequences of one length. */
  ghost predicate Lex(a: seq<nat>, b: seq<nat>)
  {
    exists k: nat :: LexAt(a, b, k)
  }

  ghost predicate LexLeq(a: seq<nat>, b: seq<nat>)
  {
    a == b || Lex(a, b)
  }

  ghost predicate Permutes(a: seq<nat>, b: seq<nat>)
  {
    multiset(a) == multiset(b)
  }

  predicate Ascending(s: seq<nat>)
  {
    forall i, j :: 0 <= i < j < |s| ==> s[i] <= s[j]
  }

  predicate Descending(s: seq<nat>)
  {
    forall i, j :: 0 <= i < j < |s| ==> s[i] >= s[j]
  }

  lemma PermutesLength(a: seq<nat>, b: seq<nat>)
    requires Permutes(a, b)
    ensures |a| == |b|
  {
    assert |multiset(a)| == |a| && |multiset(b)| == |b|;
  }

  lemma LexTransitive(a: seq<nat>, b: seq<nat>, c: seq<nat>)
    requires Lex(a, b) && Lex(b, c)
    ensures Lex(a, c)
  {
    var j: nat :| LexAt(a, b, j);
    var k: nat :| LexAt(b, c, k);
    var m := if j < k then j else k;
    assert a[..m] == a[..j][..m] && b[..m] == b[..j][..m] && b[..m] == b[..k][..m] && c[..m] == c[..k][..m];
    if j < k { assert b[j] == b[..k][j] && c[j] == c[..k][j]; }
    if k < j { assert a[k] == a[..j][k] && b[k] == b[..j][k]; }
    assert LexAt(a, c, m);
  }

  lemma {:induction false} FirstDifference(a: seq<nat>, b: seq<nat>) returns (k: nat)
    requires |a| == |b| && a != b
    ensures k < |a| && a[..k] == b[..k] && a[k] != b[k]
  {
    k :| k < |a| && a[k] != b[k];
    while exists m: nat :: m < k && a[m] != b[m]
      invariant k < |a| && a[k] != b[k]
      decreases k
    {
      var m: nat :| m < k && a[m] != b[m];
      k := m;
    }
  }

  lemma LexTotal(a: seq<nat>, b: seq<nat>)
    requires |a| == |b| && a != b
    ensures Lex(a, b) || Lex(b, a)
  {
    var k := FirstDifference(a, b);
    assert LexAt(a, b, k) || LexAt(b, a, k);
  }

  /** What remains after a common prefix is still a permutation. */
  lemma PermutesSuffix(a: seq<nat>, b: seq<nat>, k: nat)
    requires Permutes(a, b) && k <= |a| && k <= |b| && a[..k] == b[..k]
    ensures Permutes(a[k..], b[k..])
    ensures forall x :: x in a[k..] <==> x in b[k..]
  {
    var p, x, y := multiset(a[..k]), multiset(a[k..]), multiset(b[k..]);
    assert a == a[..k] + a[k..] && b == b[..k] + b[k..];
    assert multiset(a) == p + x && multiset(b) == p + y;
    assert forall e :: (p + x)[e] == p[e] + x[e] && (p + y)[e] == p[e] + y[e];
    assert x == y;
    forall e
      ensures e in a[k..] <==> e in b[k..]
    {
      assert e in a[k..] <==> e in x;
      assert e in b[k..] <==> e in y;
    }
  }

  lemma AscendingIsLeast(a: seq<nat>, t: seq<nat>)
    requires Ascending(a) && Permutes(t, a)
    ensures LexLeq(a, t)
  {
    PermutesLength(t, a);
    if a != t {
      var k := FirstDifference(a, t);
      PermutesSuffix(t, a, k);
      assert t[k..][0] in t[k..];
      assert t[k] in a[k..];
      assert LexAt(a, t, k);
    }
  }

  lemma DescendingIsGreatest(a: seq<nat>, t: seq<nat>)
    requires Descending(a) && Permutes(t, a)
    ensures LexLeq(t, a)
  {
    PermutesLength(t, a);
    if a != t {
      var k := FirstDifference(a, t);
      PermutesSuffix(t, a, k);
      assert t[k..][0] in t[k..];
      assert t[k] in a[k..];
      assert LexAt(t, a, k);
    }
  }

  function Reversed(s: seq<nat>): (r: seq<nat>)
    ensures |r| == |s| && forall i :: 0 <= i < |s| ==> r[i] == s[|s| - 1 - i]
    ensures multiset(r) == multiset(s)
  {
    if s == [] then []
    else
      assert s == [s[0]] + s[1..];
      Reversed(s[1..]) + [s[0]]
  }

  lemma SwapPermutes(s: seq<nat>, i: nat, j: nat)
    requires i < |s| && j < |s|
    ensures Permutes(s[i := s[j]][j := s[i]], s)
  {
  }

  /** The pivot i, the least greater element j after it, and the reversed tail give the successor. */
  lemma SuccessorIsLeast(s: seq<nat>, i: nat, j: nat, r: seq<nat>, t: seq<nat>)
    requires i < j < |s| == |r|
    requires Descending(s[i + 1..]) && s[i] < s[j]
    requires forall m :: i < m < |s| && s[i] < s[m] ==> s[j] <= s[m]
    requires Permutes(r, s) && r[..i] == s[..i] && r[i] == s[j] && Ascending(r[i + 1..])
    requires Permutes(t, s) && Lex(s, t)
    ensures LexLeq(r, t)
  {
    var k: nat :| LexAt(s, t, k);
    DifferenceBeforeTail(s, i, t, k);
    if k < i {
      assert r[..k] == r[..i][..k] == s[..i][..k] == s[..k];
      assert r[k] == r[..i][k] == s[..i][k];
      assert LexAt(r, t, k);
    } else {
      PermutesSuffix(t, s, i);
      assert t[i..][0] in t[i..];
      assert t[i] in s[i..];
      var m :| 0 <= m < |s[i..]| && s[i..][m] == t[i];
      assert s[i + m] == t[i] && m > 0;
      if t[i] == s[j] {
        EqualPivot(i, r, t);
      } else {
        assert LexAt(r, t, i);
      }
    }
  }

  lemma EqualPivot(i: nat, r: seq<nat>, t: seq<nat>)
    requires i < |r| == |t| && r[..i] == t[..i] && r[i] == t[i]
    requires Permutes(t, r) && Ascending(r[i + 1..])
    ensures LexLeq(r, t)
  {
    assert r[..i + 1] == r[..i] + [r[i]] && t[..i + 1] == t[..i] + [t[i]];
    PermutesSuffix(t, r, i + 1);
    AscendingIsLeast(r[i + 1..], t[i + 1..]);
    LexLeqPrefix(r, t, i + 1);
  }

  lemma LexLeqPrefix(r: seq<nat>, t: seq<nat>, n: nat)
    requires n <= |r| == |t| && r[..n] == t[..n] && LexLeq(r[n..], t[n..])
    ensures LexLeq(r, t)
  {
    if r[n..] == t[n..] {
      assert r == r[..n] + r[n..] && t == t[..n] + t[n..];
    } else {
      var m: nat :| LexAt(r[n..], t[n..], m);
      assert r[..n + m] == r[..n] + r[n..][..m];
      assert t[..n + m] == t[..n] + t[n..][..m];
      assert LexAt(r, t, n + m);
    }
  }

  /** A tail in descending order cannot grow, so a greater permutation differs before it. */
  lemma DifferenceBeforeTail(s: seq<nat>, i: nat, t: seq<nat>, k: nat)
    requires LexAt(s, t, k) && Permutes(t, s)
    requires i < |s| && Descending(s[i + 1..])
    ensures k <= i
  {
    if k > i {
      var u, v := s[i + 1..], t[i + 1..];
      assert t[..i + 1] == t[..k][..i + 1] && s[..i + 1] == s[..k][..i + 1];
      PermutesSuffix(t, s, i + 1);
      DescendingIsGreatest(u, v);
      assert u[..k - i - 1] == s[..k][i + 1..] && v[..k - i - 1] == t[..k][i + 1..];
      assert LexAt(u, v, k - i - 1);
      LexAsymmetric(u, v);
    }
  }

  lemma LexAsymmetric(u: seq<nat>, v: seq<nat>)
    requires Lex(u, v)
    ensures !LexLeq(v, u)
  {
    if Lex(v, u) {
      LexTransitive(v, u, v);
    }
  }

  /** r is the next permutation after s. */
  ghost predicate IsSuccessor(s: seq<nat>, r: seq<nat>)
  {
    && Permutes(r, s)
    && Lex(s, r)
    && forall t {:trigger LexLeq(r, t)} :: Permutes(t, s) && Lex(s, t) ==> LexLeq(r, t)
  }

  /** s is the last permutation. */
  ghost predicate IsLast(s: seq<nat>)
  {
    forall t {:trigger LexLeq(t, s)} :: Permutes(t, s) ==> LexLeq(t, s)
  }

  /** The algorithm of std::next_permutation. */
  method NextPermutation(s: seq<nat>) returns (more: bool, r: seq<nat>)
    ensures more ==> IsSuccessor(s, r)
    ensures !more ==> IsLast(s) && Permutes(r, s) && Ascending(r)
  {
    r := s;
    var i := |s| - 1;
    while i > 0
      invariant |s| > 0 ==> 0 <= i < |s| && Descending(s[i..])
    {
      i := i - 1;
      if s[i] < s[i + 1] {
        var j := |s| - 1;
        while !(s[i] < s[j])
          invariant i < j < |s|
          invariant forall m :: j < m < |s| ==> s[m] <= s[i]
          decreases j
        {
          j := j - 1;
        }
        r := s[i := s[j]][j := s[i]];
        r := r[..i + 1] + Reversed(r[i + 1..]);
        PivotStep(s, i, j, r);
        return true, r;
      }
      DescendingFrom(s, i);
    }
    r := Reversed(s);
    assert s[0..] == s;
    DescendingIsLast(s);
    return false, r;
  }

  lemma PivotStep(s: seq<nat>, i: nat, j: nat, r: seq<nat>)
    requires i < j < |s| && Descending(s[i + 1..]) && s[i] < s[j]
    requires forall m :: j < m < |s| ==> s[m] <= s[i]
    requires var w := s[i := s[j]][j := s[i]]; r == w[..i + 1] + Reversed(w[i + 1..])
    ensures IsSuccessor(s, r)
  {
    PivotShape(s, i, j, r);
    PivotIsLeastAbove(s, i, j);
    forall t | Permutes(t, s) && Lex(s, t)
      ensures LexLeq(r, t)
    {
      SuccessorIsLeast(s, i, j, r, t);
    }
  }

  lemma PivotShape(s: seq<nat>, i: nat, j: nat, r: seq<nat>)
    requires i < j < |s| && Descending(s[i + 1..]) && s[i] < s[j]
    requires forall m :: j < m < |s| ==> s[m] <= s[i]
    requires var w := s[i := s[j]][j := s[i]]; r == w[..i + 1] + Reversed(w[i + 1..])
    ensures Permutes(r, s) && |r| == |s| && r[..i] == s[..i] && r[i] == s[j] && Ascending(r[i + 1..])
    ensures Lex(s, r)
  {
    var w := s[i := s[j]][j := s[i]];
    SwapPermutes(s, i, j);
    ReversedTailPermutes(w, i + 1);
    SwappedTail(s, i, j, w);
    NewTail(w, i, Reversed(w[i + 1..]));
    SwapKeepsFront(s, i, j);
    assert LexAt(s, r, i);
  }

  lemma NewTail(w: seq<nat>, i: nat, tail: seq<nat>)
    requires i < |w|
    ensures var r := w[..i + 1] + tail; r[..i] == w[..i] && r[i] == w[i] && r[i + 1..] == tail
  {
  }

  lemma SwapKeepsFront(s: seq<nat>, i: nat, j: nat)
    requires i < j < |s|
    ensures var w := s[i := s[j]][j := s[i]]; w[..i] == s[..i] && w[i] == s[j]
  {
  }

  lemma DescendingFrom(s: seq<nat>, i: nat)
    requires i + 1 < |s| && Descending(s[i + 1..]) && s[i] >= s[i + 1]
    ensures Descending(s[i..])
  {
    forall m | i < m < |s|
      ensures s[i] >= s[m]
    {
      assert s[i + 1..][0] == s[i + 1] && s[i + 1..][m - i - 1] == s[m];
    }
    assert s[i..] == [s[i]] + s[i + 1..];
  }

  lemma DescendingIsLast(s: seq<nat>)
    requires Descending(s)
    ensures IsLast(s)
  {
    forall t | Permutes(t, s)
      ensures LexLeq(t, s)
    {
      DescendingIsGreatest(s, t);
    }
  }

  lemma PivotIsLeastAbove(s: seq<nat>, i: nat, j: nat)
    requires i < j < |s| && Descending(s[i + 1..])
    requires forall m :: j < m < |s| ==> s[m] <= s[i]
    ensures forall m :: i < m < |s| && s[i] < s[m] ==> s[j] <= s[m]
  {
    forall m | i < m < |s| && s[i] < s[m]
      ensures s[j] <= s[m]
    {
      if m < j {
        assert s[i + 1..][m - i - 1] >= s[i + 1..][j - i - 1];
      }
    }
  }

  lemma ReversedTailPermutes(w: seq<nat>, n: nat)
    requires n <= |w|
    ensures Permutes(w[..n] + Reversed(w[n..]), w)
  {
    assert w == w[..n] + w[n..];
  }

  /** The tail stays in descending order when the pivot takes the place of the element it was swapped with. */
  lemma SwappedTail(s: seq<nat>, i: nat, j: nat, w: seq<nat>)
    requires i < j < |s| && Descending(s[i + 1..]) && s[i] < s[j]
    requires forall m :: j < m < |s| ==> s[m] <= s[i]
    requires w == s[i := s[j]][j := s[i]]
    ensures Descending(w[i + 1..]) && Ascending(Reversed(w[i + 1..]))
  {
    var v := w[i + 1..];
    forall a, b | 0 <= a < b < |v|
      ensures v[a] >= v[b]
    {
      assert s[i + 1..][a] >= s[i + 1..][b];
      assert v[a] == w[i + 1 + a] && v[b] == w[i + 1 + b];
    }
    var r := Reversed(v);
    forall a, b | 0 <= a < b < |r|
      ensures r[a] <= r[b]
    {
      assert r[a] == v[|v| - 1 - a] && r[b] == v[|v| - 1 - b];
    }
  }

  // ---------------------------------------------------------------- running through all permutations

  /** The permutations visited on the way to cur, in order: each one up to cur, once. */
  ghost predicate VisitedUpTo(visited: seq<seq<nat>>, cur: seq<nat>)
  {
    && (forall i, j :: 0 <= i < j < |visited| ==> visited[i] != visited[j])
    && (forall t {:trigger t in visited} :: t in visited <==> Permutes(t, cur) && LexLeq(t, cur))
  }

  lemma StartVisiting(cur: seq<nat>)
    requires Ascending(cur)
    ensures VisitedUpTo([cur], cur)
  {
    forall t | Permutes(t, cur) && LexLeq(t, cur)
      ensures t == cur
    {
      AscendingIsLeast(cur, t);
      if t != cur {
        LexTransitive(cur, t, cur);
      }
    }
  }

  lemma KeepVisiting(visited: seq<seq<nat>>, cur: seq<nat>, next: seq<nat>)
    requires VisitedUpTo(visited, cur) && IsSuccessor(cur, next)
    ensures VisitedUpTo(visited + [next], next)
  {
    var all := visited + [next];
    if next in visited {
      LexTransitive(cur, next, cur);
      assert false;
    }
    forall t
      ensures t in all <==> Permutes(t, next) && LexLeq(t, next)
    {
      if t in visited && t != cur {
        LexTransitive(t, cur, next);
      }
      if Permutes(t, next) && LexLeq(t, next) && t !in visited {
        PermutesLength(t, cur);
        LexTotal(t, cur);
        assert LexLeq(next, t);
        if t != next {
          LexTransitive(t, next, t);
        }
      }
    }
  }

  /** When there is no successor, every permutation has been visited exactly once. */
  lemma DoneVisiting(visited: seq<seq<nat>>, cur: seq<nat>)
    requires VisitedUpTo(visited, cur) && IsLast(cur)
    ensures forall t {:trigger t in visited} :: t in visited <==> Permutes(t, cur)
  {
    forall t
      ensures t in visited <==> Permutes(t, cur)
    {
      assert Permutes(t, cur) ==> LexLeq(t, cur);
    }
  }

  // ---------------------------------------------------------------- why the run through them ends

  /** s read as a number in the given base; the lexicographic order is the order of these numbers. */
  function Number(s: seq<nat>, base: nat): nat
  {
    if s == [] then 0 else s[0] * Pow(base, |s| - 1) + Number(s[1..], base)
  }

  ghost predicate Digits(s: seq<nat>, base: nat)
  {
    forall i :: 0 <= i < |s| ==> s[i] < base
  }

  lemma DigitBound(d: nat, p: nat, n: nat, base: nat)
    requires d < base && n < p
    ensures d * p + n < base * p
  {
    assert (d + 1) * p == d * p + p;
    MulMonotone(p, d + 1, base);
  }

  lemma {:induction false} NumberBound(s: seq<nat>, base: nat)
    requires Digits(s, base)
    ensures Number(s, base) < Pow(base, |s|)
  {
    if s != [] {
      NumberBound(s[1..], base);
      DigitBound(s[0], Pow(base, |s| - 1), Number(s[1..], base), base);
    }
  }

  lemma {:induction false} LexNumber(a: seq<nat>, b: seq<nat>, base: nat)
    requires Lex(a, b) && Digits(a, base) && Digits(b, base)
    ensures Number(a, base) < Number(b, base)
  {
    var k: nat :| LexAt(a, b, k);
    if k == 0 {
      NumberBound(a[1..], base);
      DigitBound(a[0], Pow(base, |a| - 1), Number(a[1..], base), b[0]);
    } else {
      assert a[0] == a[..k][0] && b[0] == b[..k][0];
      assert a[1..][..k - 1] == a[..k][1..] && b[1..][..k - 1] == b[..k][1..];
      assert LexAt(a[1..], b[1..], k - 1);
      LexNumber(a[1..], b[1..], base);
    }
  }
}
