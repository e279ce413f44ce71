/** Where the estimate of the norm query counter overflows unnoticed (src/netspeak/QueryNormalizer.cpp). */
module EstimateOverflow {
  import opened MachineInts
  import opened Combinatorics
  import opened SimpleQueries
  import opened StarQueries
  import opened NormQueries
  import opened NormQueryCounters
  import opened RegexReplacement
  import opened QueryNormalizers

  // ---------------------------------------------------------------- exactly when no overflow is missed

  /** A product that does not fit into 64 bits and is not seen as such. */
  ghost predicate Missed(a: uint64, b: uint64)
  {
    a * b > UINT64_MAX && SafeMult(a, b) != UINT64_MAX
  }

  ghost predicate Exact(estimate: uint64, ideal: nat)
  {
    estimate == Min(ideal, UINT64_MAX)
  }

  /** No product on the way misses an overflow. */
  ghost predicate NothingMissed(u: Unit, margin: nat, m: uint64, limit: uint32)
    decreases u, 0
  {
    match u
    case Alternation(cs) => NothingMissedInSum(cs, |cs|, margin, m, limit)
    case Concat(cs) => SumOfMins(cs) == UINT32_MAX || NothingMissedInProduct(cs, |cs|, margin + SumOfMins(cs), m, limit)
    case _ => true
  }

  ghost predicate NothingMissedInSum(cs: seq<Unit>, n: nat, margin: nat, m: uint64, limit: uint32)
    requires n <= |cs|
    decreases cs, n
  {
    n == 0 || (NothingMissedInSum(cs, n - 1, margin, m, limit) && NothingMissed(cs[n - 1], margin, m, limit))
  }

  ghost predicate NothingMissedInProduct(cs: seq<Unit>, n: nat, whole: nat, m: uint64, limit: uint32)
    requires n <= |cs|
    decreases cs, n
  {
    n == 0
    || (var margin := Max(whole - MinLen(cs[n - 1]), 0);
        && NothingMissedInProduct(cs, n - 1, whole, m, limit) && NothingMissed(cs[n - 1], margin, m, limit)
        && !Missed(EstimateProduct(cs, n - 1, whole, m, limit), Estimate(cs[n - 1], margin, m, limit)))
  }

  /** Every estimate on the way is the ideal one, or the largest number if that does not fit. */
  ghost predicate AllExact(u: Unit, margin: nat, m: uint64, limit: uint32)
    decreases u, 0
  {
    && Exact(Estimate(u, margin, m, limit), Ideal(u, margin, m, limit))
    && match u
       case Alternation(cs) => AllExactInSum(cs, |cs|, margin, m, limit)
       case Concat(cs) => SumOfMins(cs) == UINT32_MAX || AllExactInProduct(cs, |cs|, margin + SumOfMins(cs), m, limit)
       case _ => true
  }

  ghost predicate AllExactInSum(cs: seq<Unit>, n: nat, margin: nat, m: uint64, limit: uint32)
    requires n <= |cs|
    decreases cs, n
  {
    && Exact(EstimateSum(cs, n, margin, m, limit), IdealSum(cs, n, margin, m, limit))
    && (n == 0 || (AllExactInSum(cs, n - 1, margin, m, limit) && AllExact(cs[n - 1], margin, m, limit)))
  }

  ghost predicate AllExactInProduct(cs: seq<Unit>, n: nat, whole: nat, m: uint64, limit: uint32)
    requires n <= |cs|
    decreases cs, n
  {
    && Exact(EstimateProduct(cs, n, whole, m, limit), IdealProduct(cs, n, whole, m, limit))
    && (n == 0 || (AllExactInProduct(cs, n - 1, whole, m, limit)
                   && AllExact(cs[n - 1], Max(whole - MinLen(cs[n - 1]), 0), m, limit)))
  }

  lemma ExactPlus(a: uint64, b: uint64, i: nat, j: nat)
    requires Exact(a, i) && Exact(b, j)
    ensures Exact(SafeAdd(a, b), i + j)
  {
    SafeAddSaturates(a, b);
  }

  lemma ExactTimes(a: uint64, b: uint64, i: nat, j: nat)
    requires Exact(a, i) && Exact(b, j) && i > 0 && j > 0
    ensures Exact(SafeMult(a, b), i * j) <==> !Missed(a, b)
  {
    SafeMultExact(a, b);
    MulMonotoneBoth(a, i, b, j);
    if a * b <= UINT64_MAX {
      FactorFits(a, b, UINT64_MAX);
      MulMonotone(i, 1, j);
      MulMonotone(j, 1, i);
    }
  }

  /** The estimates are exact, up to saturation, if and only if no product misses an overflow. */
  lemma {:induction false} ExactIffNothingMissed(u: Unit, margin: nat, m: uint64, limit: uint32)
    requires m > 0 && Weight(u) < UINT32_MAX
    ensures AllExact(u, margin, m, limit) <==> NothingMissed(u, margin, m, limit)
    decreases u, 0
  {
    match u
    case Alternation(cs) => SumExactIff(cs, |cs|, margin, m, limit);
    case Concat(cs) =>
      if SumOfMins(cs) != UINT32_MAX {
        ProductExactIff(cs, |cs|, margin + SumOfMins(cs), m, limit);
      }
    case _ =>
  }

  lemma {:induction false} SumExactIff(cs: seq<Unit>, n: nat, margin: nat, m: uint64, limit: uint32)
    requires m > 0 && n <= |cs| && WeightMax(cs) < UINT32_MAX
    ensures AllExactInSum(cs, n, margin, m, limit) <==> NothingMissedInSum(cs, n, margin, m, limit)
    decreases cs, n
  {
    if n > 0 {
      WeightOfChild(cs, n - 1);
      SumExactIff(cs, n - 1, margin, m, limit);
      ExactIffNothingMissed(cs[n - 1], margin, m, limit);
      if AllExactInSum(cs, n - 1, margin, m, limit) && AllExact(cs[n - 1], margin, m, limit) {
        ExactPlus(EstimateSum(cs, n - 1, margin, m, limit), Estimate(cs[n - 1], margin, m, limit),
                  IdealSum(cs, n - 1, margin, m, limit), Ideal(cs[n - 1], margin, m, limit));
      }
    }
  }

  lemma {:induction false} ProductExactIff(cs: seq<Unit>, n: nat, whole: nat, m: uint64, limit: uint32)
    requires m > 0 && n <= |cs| && SumOfMins(cs) != UINT32_MAX && WeightSum(cs) < UINT32_MAX
    ensures AllExactInProduct(cs, n, whole, m, limit) <==> NothingMissedInProduct(cs, n, whole, m, limit)
    decreases cs, n
  {
    if n > 0 {
      var margin := Max(whole - MinLen(cs[n - 1]), 0);
      EveryChildReachable(cs, n - 1);
      ProductExactIff(cs, n - 1, whole, m, limit);
      ExactIffNothingMissed(cs[n - 1], margin, m, limit);
      IdealProductPositive(cs, n - 1, whole, m, limit);
      IdealPositive(cs[n - 1], margin, m, limit);
      if AllExactInProduct(cs, n - 1, whole, m, limit) && AllExact(cs[n - 1], margin, m, limit) {
        ExactTimes(EstimateProduct(cs, n - 1, whole, m, limit), Estimate(cs[n - 1], margin, m, limit),
                   IdealProduct(cs, n - 1, whole, m, limit), Ideal(cs[n - 1], margin, m, limit));
      }
    }
  }

  // ---------------------------------------------------------------- regexes in a row

  ghost predicate AllRegexes(cs: seq<Unit>)
  {
    forall i :: 0 <= i < |cs| ==> cs[i].Regex?
  }

  /** Each regex stands for m words. */
  ghost predicate EachHas(cs: seq<Unit>, words: RegexWords, m: nat)
    requires AllRegexes(cs)
  {
    forall i :: 0 <= i < |cs| ==> |words(cs[i].text)| == m
  }

  /** As many star queries, of one fixed length, and without stars. */
  ghost predicate Uniform(queries: seq<StarQuery>, count: nat, length: nat)
  {
    |queries| == count && forall i :: 0 <= i < |queries| ==> queries[i].minLength == length && StarCount(queries[i].units) == 0
  }

  lemma UniformAppend(a: seq<StarQuery>, b: seq<StarQuery>, count: nat, count': nat, length: nat)
    requires Uniform(a, count, length) && Uniform(b, count', length)
    ensures Uniform(a + b, count + count', length)
  {
  }

  lemma {:induction false} WordsUniform(words: seq<Word>, limit: nat)
    ensures AllRegexFree(WordUnits(words))
    ensures Uniform(StarQueriesOfAny(WordUnits(words), limit), |words|, 1)
  {
    WordUnitsAreWords(words);
    if words != [] {
      var front, last := words[..|words| - 1], Word(words[|words| - 1]);
      WordsUniform(front, limit);
      StarQueriesOfAnyAppend(WordUnits(front), [last], limit);
      assert [last][1..] == [];
      assert StarQueriesOfAny([last], limit) == [EMPTY.PushBack(LeafOf(last))];
      assert StarCount([SWord(last.text)][..0]) == 0;
      UniformAppend(StarQueriesOfAny(WordUnits(front), limit), [EMPTY.PushBack(LeafOf(last))], |front|, 1, 1);
    }
  }

  lemma AppendUniform(q: StarQuery, r: StarQuery, k: nat, l: nat)
    requires Uniform([q], 1, k) && Uniform([r], 1, l)
    ensures Uniform([q.Append(r)], 1, k + l)
  {
    assert [q][0] == q && [r][0] == r;
    StarCountAppend(q.units, r.units);
  }

  lemma {:induction false} AppendAllUniform(queries: seq<StarQuery>, r: StarQuery, k: nat, l: nat)
    requires Uniform(queries, |queries|, k) && Uniform([r], 1, l)
    ensures Uniform(AppendAll(queries, r), |queries|, k + l)
  {
    if queries != [] {
      AppendAllUniform(queries[1..], r, k, l);
      AppendUniform(queries[0], r, k, l);
      UniformAppend([queries[0].Append(r)], AppendAll(queries[1..], r), 1, |queries| - 1, k + l);
    }
  }

  lemma {:induction false} RowUniform(q: StarQuery, after: seq<StarQuery>, limit: nat, k: nat, l: nat)
    requires Uniform([q], 1, k) && Uniform(after, |after|, l) && k + l <= limit
    ensures Uniform(Row(q, after, limit), |after|, k + l)
  {
    if after != [] {
      RowUniform(q, after[1..], limit, k, l);
      AppendUniform(q, after[0], k, l);
      assert [q][0] == q;
      UniformAppend([q.Append(after[0])], Row(q, after[1..], limit), 1, |after| - 1, k + l);
    }
  }

  lemma {:induction false} ProductUniform(before: seq<StarQuery>, after: seq<StarQuery>, limit: nat, k: nat, l: nat)
    requires Uniform(before, |before|, k) && Uniform(after, |after|, l) && k + l <= limit
    ensures Uniform(Product(before, after, limit), |before| * |after|, k + l)
  {
    if before != [] {
      ProductUniform(before[1..], after, limit, k, l);
      RowUniform(before[0], after, limit, k, l);
      UniformAppend(Row(before[0], after, limit), Product(before[1..], after, limit), |after|, (|before| - 1) * |after|, k + l);
      assert |after| + (|before| - 1) * |after| == |before| * |after|;
    }
  }

  lemma AlternativesUniform(queries: seq<StarQuery>, alt: seq<StarQuery>, limit: nat, k: nat, l: nat)
    requires Uniform(queries, |queries|, k) && Uniform(alt, |alt|, l) && k + l <= limit
    ensures Uniform(AppendAlternatives(queries, alt, limit), |queries| * |alt|, k + l)
  {
    if |alt| == 1 {
      assert alt == [alt[0]];
      AppendAllUniform(queries, alt[0], k, l);
    } else if |alt| > 1 {
      ProductUniform(queries, alt, limit, k, l);
    }
  }

  /** Every choice of one word per regex gives one star query. */
  lemma {:induction false} RowOfRegexes(queries: seq<StarQuery>, cs: seq<Unit>, words: RegexWords, m: nat, limit: nat, k: nat)
    requires AllRegexes(cs) && EachHas(cs, words, m) && Uniform(queries, |queries|, k) && k + |cs| <= limit
    ensures Uniform(ExtendAll(queries, ReplacedAll(cs, words), limit), |queries| * Pow(m, |cs|), k + |cs|)
    decreases |cs|
  {
    if cs != [] {
      WordsUniform(words(cs[0].text), limit);
      var alt := StarQueriesOfAny(WordUnits(words(cs[0].text)), limit);
      AlternativesUniform(queries, alt, limit, k, 1);
      var next := AppendAlternatives(queries, alt, limit);
      assert ReplacedAll(cs, words)[1..] == ReplacedAll(cs[1..], words);
      RowOfRegexes(next, cs[1..], words, m, limit, k + 1);
      MulAssoc(|queries|, m, Pow(m, |cs| - 1));
    }
  }

  lemma {:induction false} AllShortEnough(queries: seq<StarQuery>, count: nat, limit: nat, k: nat)
    requires Uniform(queries, count, k) && k <= limit
    ensures ShortEnough(queries, limit) == queries
  {
    if queries != [] {
      AllShortEnough(queries[1..], count - 1, limit, k);
    }
  }

  lemma {:induction false} EmittedOnce(queries: seq<StarQuery>, options: Options, count: nat, k: nat)
    requires Uniform(queries, count, k) && options.minLength <= k <= options.maxLength
    ensures EmittedTotal(queries, options) == count
  {
    if queries != [] {
      EmittedOnce(queries[..|queries| - 1], options, count - 1, k);
    }
  }

  /** n regexes of m words each give exactly m^n norm queries. */
  lemma RegexesEmit(cs: seq<Unit>, words: RegexWords, m: nat, options: Options)
    requires AllRegexes(cs) && EachHas(cs, words, m) && options.minLength <= |cs| <= options.maxLength
    ensures EmittedTotal(StarQueriesOf(Replaced(Concat(cs), words), options.maxLength), options) == Pow(m, |cs|)
    ensures m > 0 ==> StarQueriesOf(Replaced(Concat(cs), words), options.maxLength) != []
  {
    var limit := options.maxLength;
    assert StarCount(EMPTY.units) == 0;
    RowOfRegexes([EMPTY], cs, words, m, limit, 0);
    var all := ExtendAll([EMPTY], ReplacedAll(cs, words), limit);
    AllShortEnough(all, Pow(m, |cs|), limit, |cs|);
    EmittedOnce(all, options, Pow(m, |cs|), |cs|);
    if m > 0 { PowPositive(m, |cs|); }
  }

  lemma {:induction false} PowPositive(m: nat, n: nat)
    requires m > 0
    ensures Pow(m, n) > 0
  {
    if n > 0 {
      PowPositive(m, n - 1);
      MulMonotone(Pow(m, n - 1), 1, m);
    }
  }

  // ---------------------------------------------------------------- an overflow that is missed

  const MANY: uint64 := 2642250

  lemma {:induction false} MinsOfRegexes(cs: seq<Unit>)
    requires AllRegexes(cs)
    ensures RangeOfAll(cs).Range? && RangeOfAll(cs).min == |cs|
  {
    if cs != [] {
      MinsOfRegexes(cs[1..]);
    }
  }

  lemma EstimateOfThree(cs: seq<Unit>, m: uint64, limit: uint32)
    requires |cs| == 3 && AllRegexes(cs) && m > 0
    ensures Estimate(Concat(cs), 0, m, limit) == SafeMult(SafeMult(m, m), m)
  {
    MinsOfRegexes(cs);
    SafeMultExact(1, m);
    var whole := SumOfMins(cs);
    assert EstimateProduct(cs, 1, whole, m, limit) == SafeMult(EstimateProduct(cs, 0, whole, m, limit), m) == m;
    assert EstimateProduct(cs, 2, whole, m, limit) == SafeMult(m, m);
    assert EstimateProduct(cs, 3, whole, m, limit) == SafeMult(SafeMult(m, m), m);
  }

  lemma ProductOfThree()
    ensures SafeMult(SafeMult(MANY, MANY), MANY) == 84_832_681_073_384
    ensures Pow(MANY, 3) > 10_000_000_000_000_000_000
  {
    assert SafeMult(MANY, MANY) == 6_981_485_062_500;
    assert Pow(MANY, 1) == MANY;
    assert Pow(MANY, 2) == MANY * MANY == 6_981_485_062_500;
    assert Pow(MANY, 3) == MANY * 6_981_485_062_500;
  }

  /** Three regexes of 2642250 words each are estimated at less than 10^14 norm queries; there are more than 10^19. */
  lemma EstimateCanMissOverflow(cs: seq<Unit>, words: RegexWords, options: Options)
    requires |cs| == 3 && AllRegexes(cs) && EachHas(cs, words, MANY) && options.minLength <= 3 <= options.maxLength
    ensures Estimate(Concat(cs), 0, MANY, options.maxLength) == 84_832_681_073_384
    ensures EmittedTotal(StarQueriesOf(Replaced(Concat(cs), words), options.maxLength), options) > 10_000_000_000_000_000_000
  {
    EstimateOfThree(cs, MANY, options.maxLength);
    ProductOfThree();
    RegexesEmit(cs, words, MANY, options);
  }

  /** So the query is refused for too many norm queries, although its regexes were replaced within the budget. */
  lemma OverflowRefusesTree(cs: seq<Unit>, index: MatchQuery, options: Options)
    requires |cs| == 3 && AllRegexes(cs) && EachHas(cs, WordsFor(index, MANY), MANY)
    requires options.minLength <= 3 <= options.maxLength && options.maxRegexMatches == MANY
    requires 84_832_681_073_384 <= options.maxNormQueries <= 10_000_000_000_000_000_000
    ensures TreeRefusedFor(TooManyNormQueries, Concat(cs), index, options, 0)
  {
    EstimateCanMissOverflow(cs, WordsFor(index, MANY), options);
    RegexesEmit(cs, WordsFor(index, MANY), MANY, options);
    assert cs[0] in cs && !RegexFree(cs[0]);
    assert !RegexFree(Concat(cs));
    assert ChosenMatches(Concat(cs), options) == MANY;
  }
}
