/** The room of a star in the estimate of the norm query counter (src/netspeak/QueryNormalizer.cpp): where its 32-bit
    difference wraps. */
module StarRooms {
  import opened MachineInts
  import opened Combinatorics
  import opened SimpleQueries
  import opened StarQueries
  import opened NormQueries
  import opened NormQueryCounters
  import opened RegexReplacement
  import opened NormCounts
  import opened EstimateExact
  import opened QueryNormalizers

  /** The estimate if a star whose surroundings are too long had no room. */
  function Intended(u: Unit, margin: nat, m: nat, limit: uint32): nat
    decreases u, 0
  {
    match u
    case Word(_) => 1
    case QMark => 1
    case Star => 1 + Max(limit - margin, 0)
    case Regex(_) => m
    case Alternation(cs) => IntendedSum(cs, |cs|, margin, m, limit)
    case Concat(cs) =>
      if SumOfMins(cs) == UINT32_MAX then 0 else IntendedProduct(cs, |cs|, margin + SumOfMins(cs), m, limit)
  }

  function IntendedSum(cs: seq<Unit>, n: nat, margin: nat, m: nat, limit: uint32): nat
    requires n <= |cs|
    decreases cs, n
  {
    if n == 0 then 0 else IntendedSum(cs, n - 1, margin, m, limit) + Intended(cs[n - 1], margin, m, limit)
  }

  function IntendedProduct(cs: seq<Unit>, n: nat, whole: nat, m: nat, limit: uint32): nat
    requires n <= |cs|
    decreases cs, n
  {
    if n == 0 then 1
    else IntendedProduct(cs, n - 1, whole, m, limit) * Intended(cs[n - 1], Max(whole - MinLen(cs[n - 1]), 0), m, limit)
  }

  /** Around each star that counts there are no more fixed words than allowed. */
  predicate StarsFit(u: Unit, margin: nat, limit: uint32)
    decreases u, 0
  {
    match u
    case Star => margin <= limit
    case Alternation(cs) => forall i :: 0 <= i < |cs| ==> StarsFit(cs[i], margin, limit)
    case Concat(cs) =>
      SumOfMins(cs) != UINT32_MAX ==>
        forall i :: 0 <= i < |cs| ==> StarsFit(cs[i], Max(margin + SumOfMins(cs) - MinLen(cs[i]), 0), limit)
    case _ => true
  }

  /** a does not exceed b, and equals it exactly under the condition; it is positive if it has to be. */
  predicate Compares(a: nat, b: nat, same: bool, positive: bool)
  {
    a <= b && (a == b <==> same) && (positive ==> a > 0)
  }

  lemma StarCompares(margin: nat, limit: uint32)
    requires margin < UINT32_MAX
    ensures Compares(1 + Max(limit - margin, 0), 1 + Room(margin, limit), margin <= limit, true)
  {
    if margin <= limit {
      Unwrapped(limit - margin, TWO_32);
    } else {
      Unwrapped(limit - margin + TWO_32, TWO_32);
      assert Room(margin, limit) == limit - margin + TWO_32;
    }
  }

  lemma ProductCompares(a: nat, b: nat, same: bool, c: nat, d: nat, same': bool)
    requires Compares(a, b, same, true) && Compares(c, d, same', true)
    ensures Compares(a * c, b * d, same && same', true)
  {
    MulMonotone(a, c, d);
    MulMonotone(d, a, b);
    MulMonotone(a, 1, c);
    if c < d { MulMonotone(a, c + 1, d); }
    if a < b { MulMonotone(d, a + 1, b); }
  }

  predicate SumFits(cs: seq<Unit>, n: nat, margin: nat, limit: uint32)
    requires n <= |cs|
  {
    forall i :: 0 <= i < n ==> StarsFit(cs[i], margin, limit)
  }

  predicate ProductFits(cs: seq<Unit>, n: nat, whole: nat, limit: uint32)
    requires n <= |cs|
  {
    forall i :: 0 <= i < n ==> StarsFit(cs[i], Max(whole - MinLen(cs[i]), 0), limit)
  }

  predicate SomeReachable(cs: seq<Unit>, n: nat)
    requires n <= |cs|
  {
    exists i :: 0 <= i < n && MinLen(cs[i]) != UINT32_MAX
  }

  /** The estimate is at least the intended one, and equal to it exactly if the stars fit. */
  lemma {:induction false} EstimateAsIntendedIff(u: Unit, margin: nat, m: nat, limit: uint32)
    requires m > 0 && margin + Weight(u) < UINT32_MAX
    ensures Compares(Intended(u, margin, m, limit), Ideal(u, margin, m, limit), StarsFit(u, margin, limit), MinLen(u) != UINT32_MAX)
    decreases u, 0
  {
    match u
    case Star => StarCompares(margin, limit);
    case Alternation(cs) => AlternationAsIntended(cs, margin, m, limit);
    case Concat(cs) => if SumOfMins(cs) != UINT32_MAX { ConcatAsIntended(cs, margin, m, limit); }
    case _ =>
  }

  lemma {:induction false} AlternationAsIntended(cs: seq<Unit>, margin: nat, m: nat, limit: uint32)
    requires m > 0 && margin + WeightMax(cs) < UINT32_MAX
    ensures Compares(IntendedSum(cs, |cs|, margin, m, limit), IdealSum(cs, |cs|, margin, m, limit), SumFits(cs, |cs|, margin, limit),
                     LeastOfMins(cs) != UINT32_MAX)
    decreases cs, |cs| + 1
  {
    SumAsIntended(cs, |cs|, margin, m, limit);
    if LeastOfMins(cs) != UINT32_MAX {
      var i := ReachableChild(cs);
      assert SomeReachable(cs, |cs|);
    }
  }

  lemma {:induction false} SumAsIntended(cs: seq<Unit>, n: nat, margin: nat, m: nat, limit: uint32)
    requires m > 0 && n <= |cs| && margin + WeightMax(cs) < UINT32_MAX
    ensures Compares(IntendedSum(cs, n, margin, m, limit), IdealSum(cs, n, margin, m, limit), SumFits(cs, n, margin, limit),
                     SomeReachable(cs, n))
    decreases cs, n
  {
    if n > 0 {
      var last := cs[n - 1];
      SumAsIntended(cs, n - 1, margin, m, limit);
      WeightOfChild(cs, n - 1);
      EstimateAsIntendedIff(last, margin, m, limit);
      assert SumFits(cs, n, margin, limit) == (SumFits(cs, n - 1, margin, limit) && StarsFit(last, margin, limit));
      assert SomeReachable(cs, n) == (SomeReachable(cs, n - 1) || MinLen(last) != UINT32_MAX);
    }
  }

  lemma ConcatAsIntended(cs: seq<Unit>, margin: nat, m: nat, limit: uint32)
    requires m > 0 && margin + WeightSum(cs) < UINT32_MAX && SumOfMins(cs) != UINT32_MAX
    ensures Compares(Intended(Concat(cs), margin, m, limit), Ideal(Concat(cs), margin, m, limit),
                     StarsFit(Concat(cs), margin, limit), true)
    decreases cs, |cs| + 1
  {
    ProductAsIntended(cs, |cs|, margin, m, limit);
    assert StarsFit(Concat(cs), margin, limit) == ProductFits(cs, |cs|, margin + SumOfMins(cs), limit);
  }

  lemma {:induction false} ProductAsIntended(cs: seq<Unit>, n: nat, margin: nat, m: nat, limit: uint32)
    requires m > 0 && n <= |cs| && margin + WeightSum(cs) < UINT32_MAX && SumOfMins(cs) != UINT32_MAX
    ensures var whole := margin + SumOfMins(cs);
            Compares(IntendedProduct(cs, n, whole, m, limit), IdealProduct(cs, n, whole, m, limit), ProductFits(cs, n, whole, limit), true)
    decreases cs, n
  {
    if n > 0 {
      var whole, last := margin + SumOfMins(cs), cs[n - 1];
      EveryChildReachable(cs, n - 1);
      var around := Max(whole - MinLen(last), 0);
      ProductAsIntended(cs, n - 1, margin, m, limit);
      EstimateAsIntendedIff(last, around, m, limit);
      ProductCompares(IntendedProduct(cs, n - 1, whole, m, limit), IdealProduct(cs, n - 1, whole, m, limit),
                      ProductFits(cs, n - 1, whole, limit), Intended(last, around, m, limit), Ideal(last, around, m, limit),
                      StarsFit(last, around, limit));
      assert ProductFits(cs, n, whole, limit) == (ProductFits(cs, n - 1, whole, limit) && StarsFit(last, around, limit));
    }
  }

  // ---------------------------------------------------------------- a query that is refused for a part that finds nothing

  lemma {:induction false} WordsProduct(cs: seq<Unit>, n: nat, whole: nat, m: nat, limit: uint32)
    requires n <= |cs| && forall i :: 0 <= i < n ==> cs[i].Word?
    ensures IdealProduct(cs, n, whole, m, limit) == 1 && IntendedProduct(cs, n, whole, m, limit) == 1
  {
    if n > 0 {
      WordsProduct(cs, n - 1, whole, m, limit);
    }
  }

  /** A part that is too long although its star is empty. */
  predicate LongPart(cs: seq<Unit>, limit: uint32)
  {
    limit + 1 < |cs| < UINT32_MAX && WordsThenStar(cs)
  }

  predicate WordsThenStar(cs: seq<Unit>)
  {
    cs != [] && cs[|cs| - 1].Star? && forall i :: 0 <= i < |cs| - 1 ==> cs[i].Word?
  }

  lemma WordsThenStarTail(cs: seq<Unit>)
    requires WordsThenStar(cs)
    ensures if |cs| > 1 then cs[0].Word? && WordsThenStar(cs[1..]) else cs[0].Star? && cs[1..] == []
  {
  }

  lemma FirstLength(cs: seq<Unit>)
    requires cs != [] && (cs[0].Word? || cs[0].Star?) && RangeOfAll(cs[1..]).Range?
    ensures RangeOfAll(cs).Range? && RangeOfAll(cs).min == (if cs[0].Word? then 1 else 0) + RangeOfAll(cs[1..]).min
    ensures WeightSum(cs) == (if cs[0].Word? then 1 else 0) + WeightSum(cs[1..])
  {
  }

  lemma {:induction false} WordsLengths(cs: seq<Unit>)
    requires WordsThenStar(cs)
    ensures RangeOfAll(cs).Range? && RangeOfAll(cs).min == |cs| - 1 && WeightSum(cs) == |cs| - 1
  {
    WordsThenStarTail(cs);
    if |cs| > 1 { WordsLengths(cs[1..]); }
    FirstLength(cs);
  }

  lemma LongPartIdeal(cs: seq<Unit>, m: nat, limit: uint32)
    requires LongPart(cs, limit)
    ensures Ideal(Concat(cs), 0, m, limit) == 1 + TWO_32 - (|cs| - 1 - limit) && Intended(Concat(cs), 0, m, limit) == 1
  {
    var n := |cs| - 1;
    WordsLengths(cs);
    WordsProduct(cs, n, n, m, limit);
    Unwrapped(limit - n + TWO_32, TWO_32);
    assert Room(n, limit) == limit - n + TWO_32;
    assert SumOfMins(cs) == n && MinLen(cs[n]) == 0;
    assert IdealProduct(cs, |cs|, n, m, limit) == IdealProduct(cs, n, n, m, limit) * Ideal(cs[n], n, m, limit);
    assert IntendedProduct(cs, |cs|, n, m, limit) == IntendedProduct(cs, n, n, m, limit) * Intended(cs[n], n, m, limit);
  }

  lemma {:induction false} LongPartCount(cs: seq<Unit>, c: Counting, n: nat, k: nat)
    requires WordsThenStar(cs)
    requires n + |cs| - 1 > c.options.maxLength
    ensures Count(Joined(cs, Nil), c, n, k) == 0
  {
    WordsThenStarTail(cs);
    if |cs| > 1 {
      LongPartCount(cs[1..], c, n + 1, k);
    }
  }

  function WithLongPart(cs: seq<Unit>, t: string): Unit
  {
    Alternation([Concat(cs), Regex(t)])
  }

  lemma SumOfTwo(a: Unit, b: Unit, m: nat, limit: uint32)
    ensures Ideal(Alternation([a, b]), 0, m, limit) == Ideal(a, 0, m, limit) + Ideal(b, 0, m, limit)
    ensures Intended(Alternation([a, b]), 0, m, limit) == Intended(a, 0, m, limit) + Intended(b, 0, m, limit)
  {
    var cs := [a, b];
    assert IdealSum(cs, 2, 0, m, limit) == IdealSum(cs, 1, 0, m, limit) + Ideal(cs[1], 0, m, limit);
    assert IntendedSum(cs, 2, 0, m, limit) == IntendedSum(cs, 1, 0, m, limit) + Intended(cs[1], 0, m, limit);
  }

  /** The long part gives no norm query, the regex one for each of its words. */
  lemma LongPartGivesNothing(cs: seq<Unit>, t: string, words: RegexWords, options: Options)
    requires LongPart(cs, options.maxLength) && options.minLength <= 1 <= options.maxLength
    ensures TreeCount(WithLongPart(cs, t), words, options) == |words(t)|
  {
    var c := Counting(words, options, false);
    LongPartCount(cs, c, 0, 0);
    CountAnyAppend([Concat(cs)], [Regex(t)], Nil, c, 0, 0);
    CountAnyOne(Concat(cs), Nil, c, 0, 0);
    CountAnyOne(Regex(t), Nil, c, 0, 0);
    assert [Concat(cs)] + [Regex(t)] == [Concat(cs), Regex(t)];
    ScaledIsProduct(|words(t)|, 1);
    assert Count(Cons(Regex(t), Nil), c, 0, 0) == Scaled(|words(t)|, c.AtEnd(1, 0));
  }

  lemma LongPartWeight(cs: seq<Unit>, t: string, limit: uint32)
    requires LongPart(cs, limit)
    ensures Weight(WithLongPart(cs, t)) == |cs| - 1 && !RegexFree(WithLongPart(cs, t))
  {
    WordsLengths(cs);
    var parts := [Concat(cs), Regex(t)];
    assert parts[1..] == [Regex(t)] && [Regex(t)][1..] == [];
    assert WeightMax(parts) == Max(Weight(parts[0]), WeightMax(parts[1..]));
    assert WeightMax([Regex(t)]) == Max(Weight(Regex(t)), WeightMax([Regex(t)][1..]));
    assert parts[1] in parts && !RegexFree(parts[1]);
  }

  /** A regex beside a part that is too long is refused as too complex under any budget of up to four billion, even if the
      whole query would give a single norm query. */
  lemma LongPartRefused(cs: seq<Unit>, t: string, index: MatchQuery, options: Options)
    requires LongPart(cs, options.maxLength) && |cs| < 200_000_000
    requires 0 < options.maxRegexMatches <= UINT32_MAX && options.maxNormQueries <= 4_000_000_000
    ensures TreeRefusedFor(TooComplex, WithLongPart(cs, t), index, options, 0)
    ensures Intended(WithLongPart(cs, t), 0, 1, options.maxLength) == 2
  {
    var tree, limit := WithLongPart(cs, t), options.maxLength;
    LongPartIdeal(cs, 1, limit);
    LongPartIdeal(cs, options.maxRegexMatches, limit);
    SumOfTwo(Concat(cs), Regex(t), 1, limit);
    SumOfTwo(Concat(cs), Regex(t), options.maxRegexMatches, limit);
    LongPartWeight(cs, t, limit);
    NothingChosenIff(tree, options);
  }
}
