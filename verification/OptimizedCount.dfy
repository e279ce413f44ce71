/** The optimiser (src/netspeak/QueryNormalizer.cpp) never makes a tree give more norm queries. */
module OptimizedCounts {
  import opened MachineInts
  import opened Combinatorics
  import opened LengthRanges
  import opened SimpleQueries
  import opened StarQueries
  import opened NormQueries
  import opened RegexReplacement
  import opened QueryOptimizer
  import opened NormCounts
  import Sequences

  /** a gives no more norm queries than b, whatever stands before. */
  ghost predicate Below(a: Units, b: Units, c: Counting)
  {
    forall n: nat, k: nat :: Count(a, c, n, k) <= Count(b, c, n, k)
  }

  lemma BelowAt(a: Units, b: Units, c: Counting, n: nat, k: nat)
    requires Below(a, b, c)
    ensures Count(a, c, n, k) <= Count(b, c, n, k)
  {
  }

  lemma BelowThrough(a: Units, b: Units, d: Units, c: Counting)
    requires Below(a, b, c) && Below(b, d, c)
    ensures Below(a, d, c)
  {
    forall n: nat, k: nat
      ensures Count(a, c, n, k) <= Count(d, c, n, k)
    {
      BelowAt(a, b, c, n, k);
      BelowAt(b, d, c, n, k);
    }
  }

  // ---------------------------------------------------------------- the same units in front

  lemma {:induction false} ConsBelowAt(u: Unit, a: Units, b: Units, c: Counting, n: nat, k: nat)
    requires Below(a, b, c)
    ensures Count(Cons(u, a), c, n, k) <= Count(Cons(u, b), c, n, k)
    decreases u, 0
  {
    match u
    case Word(_) => BelowAt(a, b, c, n + 1, k);
    case QMark => BelowAt(a, b, c, n + 1, k);
    case Star => BelowAt(a, b, c, n, k + 1);
    case Regex(t) =>
      BelowAt(a, b, c, n + 1, k);
      ScaledMonotone(|c.words(t)|, Count(a, c, n + 1, k), Count(b, c, n + 1, k));
    case Concat(cs) =>
      JoinedBelow(cs, a, b, c);
      BelowAt(Joined(cs, a), Joined(cs, b), c, n, k);
    case Alternation(cs) => AnyBelowAt(cs, a, b, c, n, k);
  }

  lemma {:induction false} ConsBelow(u: Unit, a: Units, b: Units, c: Counting)
    requires Below(a, b, c)
    ensures Below(Cons(u, a), Cons(u, b), c)
    decreases u, 1
  {
    forall n: nat, k: nat
      ensures Count(Cons(u, a), c, n, k) <= Count(Cons(u, b), c, n, k)
    {
      ConsBelowAt(u, a, b, c, n, k);
    }
  }

  lemma {:induction false} JoinedBelow(cs: seq<Unit>, a: Units, b: Units, c: Counting)
    requires Below(a, b, c)
    ensures Below(Joined(cs, a), Joined(cs, b), c)
    decreases cs, 2
  {
    if cs != [] {
      JoinedBelow(cs[1..], a, b, c);
      ConsBelow(cs[0], Joined(cs[1..], a), Joined(cs[1..], b), c);
    }
  }

  lemma {:induction false} AnyBelowAt(cs: seq<Unit>, a: Units, b: Units, c: Counting, n: nat, k: nat)
    requires Below(a, b, c)
    ensures CountAny(cs, a, c, n, k) <= CountAny(cs, b, c, n, k)
    decreases cs, 2
  {
    if cs != [] {
      ConsBelowAt(cs[0], a, b, c, n, k);
      AnyBelowAt(cs[1..], a, b, c, n, k);
    }
  }

  // ---------------------------------------------------------------- dropping a unit that may be empty

  lemma AtEndRises(c: Counting, n: nat, k: nat)
    ensures c.AtEnd(n, k) <= c.AtEnd(n, k + 1)
  {
    if c.options.minLength <= n <= c.options.maxLength {
      var a := c.options.maxLength - n;
      MulMonotone(Pow(a + 1, k), 1, a + 1);
      assert Choose(k + 1 + a, k + 1) == Choose(k + a, k) + Choose(k + a, k + 1);
    }
  }

  /** One more star gives no fewer norm queries. */
  lemma {:induction false} MoreStars(us: Units, c: Counting, n: nat, k: nat)
    ensures Count(us, c, n, k) <= Count(us, c, n, k + 1)
    decreases ListSize(us), 0, 0
  {
    match us
    case Nil => AtEndRises(c, n, k);
    case Cons(u, rest) =>
      match u
      case Word(_) => MoreStars(rest, c, n + 1, k);
      case QMark => MoreStars(rest, c, n + 1, k);
      case Star => MoreStars(rest, c, n, k + 1);
      case Regex(t) =>
        MoreStars(rest, c, n + 1, k);
        ScaledMonotone(|c.words(t)|, Count(rest, c, n + 1, k), Count(rest, c, n + 1, k + 1));
      case Concat(cs) =>
        JoinedSize(cs, rest);
        MoreStars(Joined(cs, rest), c, n, k);
      case Alternation(cs) => MoreStarsInAny(cs, rest, c, n, k);
  }

  lemma {:induction false} MoreStarsInAny(cs: seq<Unit>, rest: Units, c: Counting, n: nat, k: nat)
    ensures CountAny(cs, rest, c, n, k) <= CountAny(cs, rest, c, n, k + 1)
    decreases SizeAll(cs) + ListSize(rest), 1, |cs|
  {
    if cs != [] {
      MoreStars(Cons(cs[0], rest), c, n, k);
      MoreStarsInAny(cs[1..], rest, c, n, k);
    }
  }

  /** A unit that may be empty gives no fewer norm queries than leaving it out. */
  lemma {:induction false} ZeroAdds(u: Unit, rest: Units, c: Counting, n: nat, k: nat)
    requires Zero(u)
    ensures Count(rest, c, n, k) <= Count(Cons(u, rest), c, n, k)
    decreases u, 0
  {
    match u
    case Star => MoreStars(rest, c, n, k);
    case Concat(cs) => ZerosAdd(cs, rest, c, n, k);
    case Alternation(cs) => SomeZeroAdds(cs, rest, c, n, k);
  }

  lemma AllZero(cs: seq<Unit>)
    requires cs != [] && RangeOfAll(cs).Range? && RangeOfAll(cs).min == 0
    ensures Zero(cs[0]) && RangeOfAll(cs[1..]).Range? && RangeOfAll(cs[1..]).min == 0
  {
  }

  lemma {:induction false} ZerosAdd(cs: seq<Unit>, rest: Units, c: Counting, n: nat, k: nat)
    requires RangeOfAll(cs).Range? && RangeOfAll(cs).min == 0
    ensures Count(rest, c, n, k) <= Count(Joined(cs, rest), c, n, k)
    decreases cs, 1
  {
    if cs != [] {
      AllZero(cs);
      ZerosAdd(cs[1..], rest, c, n, k);
      ZeroAdds(cs[0], Joined(cs[1..], rest), c, n, k);
    }
  }

  lemma {:induction false} SomeZeroAdds(cs: seq<Unit>, rest: Units, c: Counting, n: nat, k: nat)
    requires RangeOfAny(cs).Range? && RangeOfAny(cs).min == 0
    ensures Count(rest, c, n, k) <= CountAny(cs, rest, c, n, k)
    decreases cs, 1
  {
    if Zero(cs[0]) {
      ZeroAdds(cs[0], rest, c, n, k);
    } else {
      SomeZeroAdds(cs[1..], rest, c, n, k);
    }
  }

  lemma Dropped(u: Unit, a: Units, b: Units, c: Counting)
    requires Zero(u) && Below(a, b, c)
    ensures Below(a, Cons(u, b), c)
  {
    forall n: nat, k: nat
      ensures Count(a, c, n, k) <= Count(Cons(u, b), c, n, k)
    {
      BelowAt(a, b, c, n, k);
      ZeroAdds(u, b, c, n, k);
    }
  }

  // ---------------------------------------------------------------- the star passes

  lemma {:induction false} ForwardBelow(cs: seq<Unit>, rest: Units, c: Counting)
    ensures Below(Joined(Forward(cs), rest), Joined(cs, rest), c)
  {
    if cs != [] {
      var front, last := cs[..|cs| - 1], cs[|cs| - 1];
      assert cs == front + [last];
      JoinedSnoc(front, last, rest);
      if Zero(last) && StarBehind(front) {
        ForwardBelow(front, rest, c);
        Dropped(last, rest, rest, c);
        JoinedBelow(front, rest, Cons(last, rest), c);
        BelowThrough(Joined(Forward(front), rest), Joined(front, rest), Joined(cs, rest), c);
      } else {
        ForwardBelow(front, Cons(last, rest), c);
        JoinedSnoc(Forward(front), last, rest);
      }
    }
  }

  lemma {:induction false} BackwardBelow(cs: seq<Unit>, rest: Units, c: Counting)
    ensures Below(Joined(Backward(cs), rest), Joined(cs, rest), c)
  {
    if cs != [] {
      BackwardBelow(cs[1..], rest, c);
      if Zero(cs[0]) && StarAhead(cs[1..]) {
        Dropped(cs[0], Joined(Backward(cs[1..]), rest), Joined(cs[1..], rest), c);
      } else {
        ConsBelow(cs[0], Joined(Backward(cs[1..]), rest), Joined(cs[1..], rest), c);
        assert Backward(cs)[1..] == Backward(cs[1..]);
      }
    }
  }

  lemma AbsorbBelow(cs: seq<Unit>, rest: Units, c: Counting)
    ensures Below(Joined(Absorb(cs), rest), Joined(cs, rest), c)
  {
    ForwardBelow(cs, rest, c);
    BackwardBelow(Forward(cs), rest, c);
    BelowThrough(Joined(Absorb(cs), rest), Joined(Forward(cs), rest), Joined(cs, rest), c);
  }

  // ---------------------------------------------------------------- inlining

  lemma ConcatIsJoined(cs: seq<Unit>, rest: Units, c: Counting)
    ensures Below(Cons(Concat(cs), rest), Joined(cs, rest), c) && Below(Joined(cs, rest), Cons(Concat(cs), rest), c)
  {
  }

  lemma {:induction false} InlinedConcatBelow(cs: seq<Unit>, rest: Units, c: Counting)
    ensures Below(Joined(Inlined(cs, CONCAT), rest), Joined(cs, rest), c)
  {
    if cs != [] {
      var inner := Joined(Inlined(cs[1..], CONCAT), rest);
      InlinedConcatBelow(cs[1..], rest, c);
      if cs[0].Concat? {
        JoinedAppend(cs[0].children, Inlined(cs[1..], CONCAT), rest);
        JoinedBelow(cs[0].children, inner, Joined(cs[1..], rest), c);
        ConcatIsJoined(cs[0].children, Joined(cs[1..], rest), c);
        BelowThrough(Joined(cs[0].children, inner), Joined(cs[0].children, Joined(cs[1..], rest)), Joined(cs, rest), c);
      } else {
        JoinedAppend([cs[0]], Inlined(cs[1..], CONCAT), rest);
        assert [cs[0]][1..] == [];
        assert Joined([cs[0]], inner) == Cons(cs[0], Joined([cs[0]][1..], inner));
        ConsBelow(cs[0], inner, Joined(cs[1..], rest), c);
      }
    }
  }

  lemma {:induction false} InlinedAlternationCount(cs: seq<Unit>, rest: Units, c: Counting, n: nat, k: nat)
    ensures CountAny(Inlined(cs, ALTERNATION), rest, c, n, k) == CountAny(cs, rest, c, n, k)
  {
    if cs != [] {
      InlinedAlternationCount(cs[1..], rest, c, n, k);
      var head := if cs[0].Alternation? then cs[0].children else [cs[0]];
      CountAnyAppend(head, Inlined(cs[1..], ALTERNATION), rest, c, n, k);
      if !cs[0].Alternation? { CountAnyOne(cs[0], rest, c, n, k); }
    }
  }

  // ---------------------------------------------------------------- the optimiser

  lemma OptimizedConcatBelow(children: seq<Unit>, rest: Units, c: Counting)
    ensures Below(Cons(OptimizedConcat(children), rest), Joined(children, rest), c)
  {
    if |children| == 0 {
      ConcatIsJoined([], rest, c);
    } else if |children| == 1 {
      assert children[1..] == [];
    } else {
      var inlined := Inlined(children, CONCAT);
      if !ContainsDead(inlined) {
        var kept := if ContainsChild(inlined, STAR) then Absorb(inlined) else inlined;
        InlinedConcatBelow(children, rest, c);
        AbsorbBelow(inlined, rest, c);
        ConcatIsJoined(kept, rest, c);
        BelowThrough(Cons(Concat(kept), rest), Joined(kept, rest), Joined(inlined, rest), c);
        BelowThrough(Cons(Concat(kept), rest), Joined(inlined, rest), Joined(children, rest), c);
      }
    }
  }

  lemma OptimizedAlternationCount(children: seq<Unit>, rest: Units, c: Counting, n: nat, k: nat)
    ensures Count(Cons(OptimizedAlternation(children), rest), c, n, k) == CountAny(children, rest, c, n, k)
  {
    if |children| == 1 {
      CountAnyOne(children[0], rest, c, n, k);
      assert children == [children[0]];
    } else if |children| > 1 {
      InlinedAlternationCount(children, rest, c, n, k);
    }
  }

  lemma {:induction false} OptimizedBelow(u: Unit, rest: Units, c: Counting)
    ensures Below(Cons(OptimizedUnit(u), rest), Cons(u, rest), c)
    decreases u, 1
  {
    match u
    case Concat(cs) =>
      OptimizedConcatBelow(OptimizedUnits(cs), rest, c);
      OptimizedJoinedBelow(cs, rest, c);
      ConcatIsJoined(cs, rest, c);
      BelowThrough(Cons(OptimizedUnit(u), rest), Joined(OptimizedUnits(cs), rest), Joined(cs, rest), c);
      BelowThrough(Cons(OptimizedUnit(u), rest), Joined(cs, rest), Cons(u, rest), c);
    case Alternation(cs) =>
      forall n: nat, k: nat
        ensures Count(Cons(OptimizedUnit(u), rest), c, n, k) <= Count(Cons(u, rest), c, n, k)
      {
        OptimizedAlternationCount(OptimizedUnits(cs), rest, c, n, k);
        OptimizedAnyBelow(cs, rest, c, n, k);
      }
    case _ =>
  }

  lemma {:induction false} OptimizedJoinedBelow(cs: seq<Unit>, rest: Units, c: Counting)
    ensures Below(Joined(OptimizedUnits(cs), rest), Joined(cs, rest), c)
    decreases cs, 0
  {
    if cs != [] {
      OptimizedJoinedBelow(cs[1..], rest, c);
      OptimizedBelow(cs[0], Joined(OptimizedUnits(cs[1..]), rest), c);
      ConsBelow(cs[0], Joined(OptimizedUnits(cs[1..]), rest), Joined(cs[1..], rest), c);
      assert OptimizedUnits(cs)[1..] == OptimizedUnits(cs[1..]);
      BelowThrough(Joined(OptimizedUnits(cs), rest), Cons(cs[0], Joined(OptimizedUnits(cs[1..]), rest)), Joined(cs, rest), c);
    }
  }

  lemma {:induction false} OptimizedAnyBelow(cs: seq<Unit>, rest: Units, c: Counting, n: nat, k: nat)
    ensures CountAny(OptimizedUnits(cs), rest, c, n, k) <= CountAny(cs, rest, c, n, k)
    decreases cs, 0
  {
    if cs != [] {
      OptimizedBelow(cs[0], rest, c);
      BelowAt(Cons(OptimizedUnit(cs[0]), rest), Cons(cs[0], rest), c, n, k);
      OptimizedAnyBelow(cs[1..], rest, c, n, k);
      assert OptimizedUnits(cs)[1..] == OptimizedUnits(cs[1..]);
    }
  }

  lemma OptimizedTreeBelow(u: Unit, rest: Units, c: Counting)
    ensures Below(Cons(OptimizedTree(u), rest), Cons(u, rest), c)
  {
    match u
    case Concat(cs) =>
      OptimizedJoinedBelow(cs, rest, c);
      ConcatIsJoined(OptimizedUnits(cs), rest, c);
      ConcatIsJoined(cs, rest, c);
      BelowThrough(Cons(OptimizedTree(u), rest), Joined(OptimizedUnits(cs), rest), Joined(cs, rest), c);
      BelowThrough(Cons(OptimizedTree(u), rest), Joined(cs, rest), Cons(u, rest), c);
    case Alternation(cs) =>
      forall n: nat, k: nat
        ensures Count(Cons(OptimizedTree(u), rest), c, n, k) <= Count(Cons(u, rest), c, n, k)
      {
        OptimizedAnyBelow(cs, rest, c, n, k);
      }
    case _ =>
  }

  /** The optimiser never makes the expansion of a tree larger, whatever words replace its regexes. */
  lemma OptimizerNeverEnlarges(u: Unit, words: RegexWords, options: Options)
    ensures TreeCount(OptimizedTree(u), words, options) <= TreeCount(u, words, options)
    ensures EmittedTotal(StarQueriesOf(Replaced(OptimizedTree(u), words), options.maxLength), options)
         <= EmittedTotal(StarQueriesOf(Replaced(u, words), options.maxLength), options)
  {
    var c := Counting(words, options, false);
    OptimizedTreeBelow(u, Nil, c);
    BelowAt(Cons(OptimizedTree(u), Nil), Cons(u, Nil), c, 0, 0);
    EmittedByTree(OptimizedTree(u), words, options);
    EmittedByTree(u, words, options);
  }
}
