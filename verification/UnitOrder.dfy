/** The order of the parts of a concatenation does not change how many norm queries it gives (src/netspeak/QueryNormalizer.cpp). */
module UnitOrders {
  import opened Sequences
  import opened NormCounts
  import opened OptimizedCounts
  import S = SimpleQueries

  ghost predicate Same(a: Units, b: Units, c: Counting)
  {
    forall n: nat, k: nat :: Count(a, c, n, k) == Count(b, c, n, k)
  }

  lemma SameIsBelow(a: Units, b: Units, c: Counting)
    ensures Same(a, b, c) <==> Below(a, b, c) && Below(b, a, c)
  {
    if Below(a, b, c) && Below(b, a, c) {
      forall n: nat, k: nat
        ensures Count(a, c, n, k) == Count(b, c, n, k)
      {
        BelowAt(a, b, c, n, k);
        BelowAt(b, a, c, n, k);
      }
    }
  }

  lemma SameThrough(a: Units, b: Units, d: Units, c: Counting)
    requires Same(a, b, c) && Same(b, d, c)
    ensures Same(a, d, c)
  {
    SameIsBelow(a, b, c);
    SameIsBelow(b, d, c);
    SameIsBelow(a, d, c);
    BelowThrough(a, b, d, c);
    BelowThrough(d, b, a, c);
  }

  lemma ConsSame(u: S.Unit, a: Units, b: Units, c: Counting)
    requires Same(a, b, c)
    ensures Same(Cons(u, a), Cons(u, b), c)
  {
    SameIsBelow(a, b, c);
    ConsBelow(u, a, b, c);
    ConsBelow(u, b, a, c);
    SameIsBelow(Cons(u, a), Cons(u, b), c);
  }

  /** What a gives is the sum of what b and d give. */
  ghost predicate SumOf(a: Units, b: Units, d: Units, c: Counting)
  {
    forall n: nat, k: nat :: Count(a, c, n, k) == Count(b, c, n, k) + Count(d, c, n, k)
  }

  lemma SumAt(a: Units, b: Units, d: Units, c: Counting, n: nat, k: nat)
    requires SumOf(a, b, d, c)
    ensures Count(a, c, n, k) == Count(b, c, n, k) + Count(d, c, n, k)
  {
  }

  lemma {:induction false} ScaledSum(m: nat, x: nat, y: nat)
    ensures Scaled(m, x + y) == Scaled(m, x) + Scaled(m, y)
  {
    if m > 0 {
      ScaledSum(m - 1, x, y);
    }
  }

  lemma RegexSum(t: string, a: Units, b: Units, d: Units, c: Counting, n: nat, k: nat)
    requires SumOf(a, b, d, c)
    ensures Scaled(|c.words(t)|, Count(a, c, n + 1, k))
         == Scaled(|c.words(t)|, Count(b, c, n + 1, k)) + Scaled(|c.words(t)|, Count(d, c, n + 1, k))
  {
    SumAt(a, b, d, c, n + 1, k);
    ScaledSum(|c.words(t)|, Count(b, c, n + 1, k), Count(d, c, n + 1, k));
  }

  lemma {:induction false} ConsSumAt(u: S.Unit, a: Units, b: Units, d: Units, c: Counting, n: nat, k: nat)
    requires SumOf(a, b, d, c)
    ensures Count(Cons(u, a), c, n, k) == Count(Cons(u, b), c, n, k) + Count(Cons(u, d), c, n, k)
    decreases u, 0
  {
    match u
    case Word(_) => SumAt(a, b, d, c, n + 1, k);
    case QMark => SumAt(a, b, d, c, n + 1, k);
    case Star => SumAt(a, b, d, c, n, k + 1);
    case Regex(t) =>
      RegexSum(t, a, b, d, c, n, k);
    case Concat(cs) =>
      JoinedSum(cs, a, b, d, c);
      SumAt(Joined(cs, a), Joined(cs, b), Joined(cs, d), c, n, k);
    case Alternation(cs) => AnySumAt(cs, a, b, d, c, n, k);
  }

  lemma {:induction false} ConsSum(u: S.Unit, a: Units, b: Units, d: Units, c: Counting)
    requires SumOf(a, b, d, c)
    ensures SumOf(Cons(u, a), Cons(u, b), Cons(u, d), c)
    decreases u, 1
  {
    forall n: nat, k: nat
      ensures Count(Cons(u, a), c, n, k) == Count(Cons(u, b), c, n, k) + Count(Cons(u, d), c, n, k)
    {
      ConsSumAt(u, a, b, d, c, n, k);
    }
  }

  lemma {:induction false} JoinedSum(cs: seq<S.Unit>, a: Units, b: Units, d: Units, c: Counting)
    requires SumOf(a, b, d, c)
    ensures SumOf(Joined(cs, a), Joined(cs, b), Joined(cs, d), c)
    decreases cs, 2
  {
    if cs != [] {
      JoinedSum(cs[1..], a, b, d, c);
      ConsSum(cs[0], Joined(cs[1..], a), Joined(cs[1..], b), Joined(cs[1..], d), c);
    }
  }

  lemma {:induction false} AnySumAt(cs: seq<S.Unit>, a: Units, b: Units, d: Units, c: Counting, n: nat, k: nat)
    requires SumOf(a, b, d, c)
    ensures CountAny(cs, a, c, n, k) == CountAny(cs, b, c, n, k) + CountAny(cs, d, c, n, k)
    decreases cs, 2
  {
    if cs != [] {
      ConsSumAt(cs[0], a, b, d, c, n, k);
      AnySumAt(cs[1..], a, b, d, c, n, k);
    }
  }

  /** The first alternative and the others. */
  lemma SplitAlternation(ds: seq<S.Unit>, rest: Units, c: Counting)
    requires ds != []
    ensures SumOf(Cons(S.Alternation(ds), rest), Cons(ds[0], rest), Cons(S.Alternation(ds[1..]), rest), c)
  {
  }

  lemma {:induction false} NothingAfter(u: S.Unit, rest: Units, c: Counting, n: nat, k: nat)
    requires Same(rest, Cons(S.Alternation([]), Nil), c)
    ensures Count(Cons(u, rest), c, n, k) == 0
    decreases u, 0
  {
    match u
    case Word(_) => NoCount(rest, c, n + 1, k);
    case QMark => NoCount(rest, c, n + 1, k);
    case Star => NoCount(rest, c, n, k + 1);
    case Regex(t) =>
      NoCount(rest, c, n + 1, k);
      ScaledZero(|c.words(t)|);
    case Concat(cs) => NothingAfterAll(cs, rest, c, n, k);
    case Alternation(cs) => NothingAfterAny(cs, rest, c, n, k);
  }

  lemma NoCount(rest: Units, c: Counting, n: nat, k: nat)
    requires Same(rest, Cons(S.Alternation([]), Nil), c)
    ensures Count(rest, c, n, k) == 0
  {
    assert Count(rest, c, n, k) == Count(Cons(S.Alternation([]), Nil), c, n, k);
  }

  lemma {:induction false} NothingAfterAll(cs: seq<S.Unit>, rest: Units, c: Counting, n: nat, k: nat)
    requires Same(rest, Cons(S.Alternation([]), Nil), c)
    ensures Count(Joined(cs, rest), c, n, k) == 0
    decreases cs, 1
  {
    if cs == [] {
      NoCount(rest, c, n, k);
    } else {
      forall n: nat, k: nat
        ensures Count(Joined(cs[1..], rest), c, n, k) == Count(Cons(S.Alternation([]), Nil), c, n, k)
      {
        NothingAfterAll(cs[1..], rest, c, n, k);
      }
      NothingAfter(cs[0], Joined(cs[1..], rest), c, n, k);
    }
  }

  lemma {:induction false} NothingAfterAny(cs: seq<S.Unit>, rest: Units, c: Counting, n: nat, k: nat)
    requires Same(rest, Cons(S.Alternation([]), Nil), c)
    ensures CountAny(cs, rest, c, n, k) == 0
    decreases cs, 1
  {
    if cs != [] {
      NothingAfter(cs[0], rest, c, n, k);
      NothingAfterAny(cs[1..], rest, c, n, k);
    }
  }

  predicate IsLeaf(u: S.Unit)
  {
    !u.Concat? && !u.Alternation?
  }

  lemma {:induction false} ScaledCommutes(m: nat, m': nat, x: nat)
    ensures Scaled(m, Scaled(m', x)) == Scaled(m', Scaled(m, x))
  {
    if m > 0 {
      ScaledCommutes(m - 1, m', x);
      ScaledSum(m', Scaled(m - 1, x), x);
    } else {
      ScaledZero(m');
    }
  }

  lemma TwoLeaves(x: S.Unit, y: S.Unit, rest: Units, c: Counting, n: nat, k: nat)
    requires IsLeaf(x) && IsLeaf(y)
    ensures Count(Cons(x, Cons(y, rest)), c, n, k) == Count(Cons(y, Cons(x, rest)), c, n, k)
  {
    if x.Regex? && y.Regex? {
      ScaledCommutes(|c.words(x.text)|, |c.words(y.text)|, Count(rest, c, n + 2, k));
    }
  }

  /** A leaf changes places with any unit. */
  lemma {:induction false} LeafExchange(x: S.Unit, y: S.Unit, rest: Units, c: Counting, n: nat, k: nat)
    requires IsLeaf(y)
    ensures Count(Cons(x, Cons(y, rest)), c, n, k) == Count(Cons(y, Cons(x, rest)), c, n, k)
    decreases x, 0
  {
    match x
    case Concat(cs) =>
      LeafThroughAll(cs, y, rest, c);
      ConcatSame(cs, rest, y, c);
      assert Count(Cons(y, Cons(x, rest)), c, n, k) == Count(Cons(y, Joined(cs, rest)), c, n, k);
      assert Count(Joined(cs, Cons(y, rest)), c, n, k) == Count(Cons(y, Joined(cs, rest)), c, n, k);
    case Alternation(cs) => LeafThroughAny(cs, y, rest, c, n, k);
    case _ => TwoLeaves(x, y, rest, c, n, k);
  }

  lemma ConcatSame(cs: seq<S.Unit>, rest: Units, y: S.Unit, c: Counting)
    ensures Same(Cons(y, Cons(S.Concat(cs), rest)), Cons(y, Joined(cs, rest)), c)
  {
    ConcatIsJoined(cs, rest, c);
    SameIsBelow(Cons(S.Concat(cs), rest), Joined(cs, rest), c);
    ConsSame(y, Cons(S.Concat(cs), rest), Joined(cs, rest), c);
  }

  lemma {:induction false} LeafThroughAll(cs: seq<S.Unit>, y: S.Unit, rest: Units, c: Counting)
    requires IsLeaf(y)
    ensures Same(Joined(cs, Cons(y, rest)), Cons(y, Joined(cs, rest)), c)
    decreases cs, 1
  {
    if cs != [] {
      var inner := Joined(cs[1..], rest);
      LeafThroughAll(cs[1..], y, rest, c);
      ConsSame(cs[0], Joined(cs[1..], Cons(y, rest)), Cons(y, inner), c);
      forall n: nat, k: nat
        ensures Count(Cons(cs[0], Cons(y, inner)), c, n, k) == Count(Cons(y, Cons(cs[0], inner)), c, n, k)
      {
        LeafExchange(cs[0], y, inner, c, n, k);
      }
      SameThrough(Joined(cs, Cons(y, rest)), Cons(cs[0], Cons(y, inner)), Cons(y, Joined(cs, rest)), c);
    }
  }

  lemma {:induction false} LeafThroughAny(cs: seq<S.Unit>, y: S.Unit, rest: Units, c: Counting, n: nat, k: nat)
    requires IsLeaf(y)
    ensures CountAny(cs, Cons(y, rest), c, n, k) == Count(Cons(y, Cons(S.Alternation(cs), rest)), c, n, k)
    decreases cs, 1
  {
    if cs == [] {
      NothingAfter(y, Cons(S.Alternation([]), rest), c, n, k);
    } else {
      LeafExchange(cs[0], y, rest, c, n, k);
      LeafThroughAny(cs[1..], y, rest, c, n, k);
      SplitAlternation(cs, rest, c);
      ConsSumAt(y, Cons(S.Alternation(cs), rest), Cons(cs[0], rest), Cons(S.Alternation(cs[1..]), rest), c, n, k);
    }
  }

  /** Two units change places. */
  lemma {:induction false} Exchange(x: S.Unit, y: S.Unit, rest: Units, c: Counting, n: nat, k: nat)
    ensures Count(Cons(x, Cons(y, rest)), c, n, k) == Count(Cons(y, Cons(x, rest)), c, n, k)
    decreases y, 0
  {
    match y
    case Concat(ds) =>
      ThroughAll(x, ds, rest, c);
      ConcatSame(ds, rest, x, c);
      assert Count(Cons(x, Cons(y, rest)), c, n, k) == Count(Cons(x, Joined(ds, rest)), c, n, k);
      assert Count(Joined(ds, Cons(x, rest)), c, n, k) == Count(Cons(x, Joined(ds, rest)), c, n, k);
    case Alternation(ds) => ThroughAny(x, ds, rest, c, n, k);
    case _ => LeafExchange(x, y, rest, c, n, k);
  }

  lemma {:induction false} ThroughAll(x: S.Unit, ds: seq<S.Unit>, rest: Units, c: Counting)
    ensures Same(Joined(ds, Cons(x, rest)), Cons(x, Joined(ds, rest)), c)
    decreases ds, 1
  {
    if ds != [] {
      var inner := Joined(ds[1..], rest);
      ThroughAll(x, ds[1..], rest, c);
      ConsSame(ds[0], Joined(ds[1..], Cons(x, rest)), Cons(x, inner), c);
      forall n: nat, k: nat
        ensures Count(Cons(ds[0], Cons(x, inner)), c, n, k) == Count(Cons(x, Cons(ds[0], inner)), c, n, k)
      {
        Exchange(x, ds[0], inner, c, n, k);
      }
      SameThrough(Joined(ds, Cons(x, rest)), Cons(ds[0], Cons(x, inner)), Cons(x, Joined(ds, rest)), c);
    }
  }

  lemma {:induction false} ThroughAny(x: S.Unit, ds: seq<S.Unit>, rest: Units, c: Counting, n: nat, k: nat)
    ensures Count(Cons(x, Cons(S.Alternation(ds), rest)), c, n, k) == CountAny(ds, Cons(x, rest), c, n, k)
    decreases ds, 1
  {
    if ds == [] {
      NothingAfter(x, Cons(S.Alternation([]), rest), c, n, k);
    } else {
      Exchange(x, ds[0], rest, c, n, k);
      ThroughAny(x, ds[1..], rest, c, n, k);
      SplitAlternation(ds, rest, c);
      ConsSumAt(x, Cons(S.Alternation(ds), rest), Cons(ds[0], rest), Cons(S.Alternation(ds[1..]), rest), c, n, k);
    }
  }

  /** Any order of the units gives as many. */
  lemma {:induction false} PermutedSame(a: seq<S.Unit>, b: seq<S.Unit>, rest: Units, c: Counting)
    requires multiset(a) == multiset(b)
    ensures Same(Joined(a, rest), Joined(b, rest), c)
    decreases |a|
  {
    assert |multiset(a)| == |a| && |multiset(b)| == |b|;
    if a != [] {
      var i := TakeOut(a, b);
      var front, back := b[..i], b[i + 1..];
      PermutedSame(a[1..], front + back, rest, c);
      ConsSame(a[0], Joined(a[1..], rest), Joined(front + back, rest), c);
      JoinedAppend(front, back, rest);
      assert b == front + ([a[0]] + back);
      JoinedAppend(front, [a[0]] + back, rest);
      assert ([a[0]] + back)[1..] == back;
      ThroughAll(a[0], front, Joined(back, rest), c);
      SameThrough(Joined(a, rest), Cons(a[0], Joined(front + back, rest)), Joined(b, rest), c);
    }
  }
}
