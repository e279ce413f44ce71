/** normalize_regexes (src/netspeak/QueryNormalizer.cpp): regexes as alternations of words, as many as the budget allows. */
module RegexReplacement {
  import opened MachineInts
  import Sequences
  import opened Combinatorics
  import opened Languages
  import opened SimpleQueries
  import opened StarQueries
  import opened NormQueries
  import opened NormQueryCounters

  /** The words that replace a regex. */
  type RegexWords = string -> seq<Word>

  /** The tree with every regex replaced by the alternation of its words. */
  function Replaced(u: Unit, words: RegexWords): (r: Unit)
    ensures RegexFree(r)
    decreases u, 1
  {
    match u
    case Regex(t) =>
      WordUnitsAreWords(words(t));
      Alternation(WordUnits(words(t)))
    case Concat(cs) => Concat(ReplacedAll(cs, words))
    case Alternation(cs) => Alternation(ReplacedAll(cs, words))
    case _ => u
  }

  function ReplacedAll(cs: seq<Unit>, words: RegexWords): (r: seq<Unit>)
    ensures AllRegexFree(r) && |r| == |cs|
    decreases cs, 0
  {
    if cs == [] then [] else [Replaced(cs[0], words)] + ReplacedAll(cs[1..], words)
  }

  /** A regex read as the set of its replacement words. */
  ghost function Meaning(words: RegexWords): RegexMeaning
  {
    t => iset w | w in words(t)
  }

  lemma {:induction false} LangAnyOfWords(words: seq<Word>, R: RegexMeaning, p: Phrase)
    ensures Has(LangAny(WordUnits(words), R), p) <==> |p| == 1 && p[0] in words
  {
    if words != [] {
      var front, last := words[..|words| - 1], words[|words| - 1];
      LangAnyOfWords(front, R, p);
      LangAnyAppend(WordUnits(front), [Word(last)], R);
      assert [Word(last)][1..] == [];
      UnionHas(LangAny(WordUnits(front), R), LangAny([Word(last)], R));
      UnionHas(Lang(Word(last), R), LangAny([], R));
      assert words == front + [last];
      assert Has(Lang(Word(last), R), p) <==> p == [last];
    }
  }

  /** Replacement gives the regexes exactly the meaning of their words. */
  lemma {:induction false} ReplacedLang(u: Unit, words: RegexWords, R: RegexMeaning)
    ensures Lang(Replaced(u, words), R) == Lang(u, Meaning(words))
    decreases u, 1
  {
    match u
    case Regex(t) =>
      forall p
        ensures Has(Lang(Replaced(u, words), R), p) <==> Has(Lang(u, Meaning(words)), p)
      {
        LangAnyOfWords(words(t), R, p);
      }
      Extensional(Lang(Replaced(u, words), R), Lang(u, Meaning(words)));
    case Concat(cs) => ReplacedAllLang(cs, words, R);
    case Alternation(cs) => ReplacedAllLang(cs, words, R);
    case _ =>
  }

  lemma {:induction false} ReplacedAllLang(cs: seq<Unit>, words: RegexWords, R: RegexMeaning)
    ensures LangAll(ReplacedAll(cs, words), R) == LangAll(cs, Meaning(words))
    ensures LangAny(ReplacedAll(cs, words), R) == LangAny(cs, Meaning(words))
    decreases cs, 0
  {
    if cs != [] {
      ReplacedLang(cs[0], words, R);
      ReplacedAllLang(cs[1..], words, R);
    }
  }

  /** Replacement makes no path heavier and no shortest path shorter. */
  lemma {:induction false} ReplacedLengths(u: Unit, words: RegexWords)
    requires Weight(u) < UINT32_MAX
    ensures Weight(Replaced(u, words)) <= Weight(u)
    ensures MinLen(Replaced(u, words)) >= MinLen(u)
    decreases u, 1
  {
    match u
    case Regex(t) => WordUnitsLengths(words(t));
    case Concat(cs) => ReplacedAllLengths(cs, words);
    case Alternation(cs) =>
      ReplacedAnyLengths(cs, words);
    case _ =>
  }

  lemma {:induction false} WordUnitsLengths(words: seq<Word>)
    ensures WeightMax(WordUnits(words)) <= 1
    ensures LeastOfMins(WordUnits(words)) >= 1
  {
    if words != [] {
      var front, last := words[..|words| - 1], words[|words| - 1];
      WordUnitsLengths(front);
      WeightMaxAppend(WordUnits(front), [Word(last)]);
      assert [Word(last)][1..] == [];
      assert RangeOfAny([Word(last)]) == RangeOf(Word(last));
      LeastOfMinsAppend(WordUnits(front), [Word(last)]);
    }
  }

  lemma {:induction false} LeastOfMinsAppend(a: seq<Unit>, b: seq<Unit>)
    requires LeastOfMins(a) >= 1 && LeastOfMins(b) >= 1
    ensures LeastOfMins(a + b) >= 1
  {
    if a == [] {
      assert a + b == b;
    } else {
      assert (a + b)[1..] == a[1..] + b;
      LeastOfMinsAppend(a[1..], b);
    }
  }

  lemma {:induction false} ReplacedAllLengths(cs: seq<Unit>, words: RegexWords)
    requires WeightSum(cs) < UINT32_MAX
    ensures WeightSum(ReplacedAll(cs, words)) <= WeightSum(cs)
    ensures SumOfMins(ReplacedAll(cs, words)) >= SumOfMins(cs)
    decreases cs, 0
  {
    if cs != [] {
      ReplacedLengths(cs[0], words);
      ReplacedAllLengths(cs[1..], words);
      assert ReplacedAll(cs, words)[1..] == ReplacedAll(cs[1..], words);
      SumOfMinsCons(cs);
      SumOfMinsCons(ReplacedAll(cs, words));
    }
  }

  lemma {:induction false} ReplacedAnyLengths(cs: seq<Unit>, words: RegexWords)
    requires WeightMax(cs) < UINT32_MAX
    ensures WeightMax(ReplacedAll(cs, words)) <= WeightMax(cs)
    ensures LeastOfMins(ReplacedAll(cs, words)) >= LeastOfMins(cs)
    decreases cs, 0
  {
    if cs != [] {
      ReplacedLengths(cs[0], words);
      ReplacedAnyLengths(cs[1..], words);
      RangeWithinWeight(cs[0]);
      RangeOfAnyWithin(cs[1..]);
      RangeWithinWeight(Replaced(cs[0], words));
      RangeOfAnyWithin(ReplacedAll(cs[1..], words));
      assert ReplacedAll(cs, words)[1..] == ReplacedAll(cs[1..], words);
    }
  }

  // ---------------------------------------------------------------- counting norm queries against the estimate

  /** A bound on the norm queries of a star query that has `margin` more fixed words around it. */
  function Fillable(q: StarQuery, margin: nat, limit: nat): nat
  {
    if margin + q.minLength <= limit then Pow(limit - margin - q.minLength + 1, StarCount(q.units)) else 0
  }

  function FillableSum(queries: seq<StarQuery>, margin: nat, limit: nat): nat
  {
    if queries == [] then 0 else Fillable(queries[0], margin, limit) + FillableSum(queries[1..], margin, limit)
  }

  lemma {:induction false} FillableSumAppend(a: seq<StarQuery>, b: seq<StarQuery>, margin: nat, limit: nat)
    ensures FillableSum(a + b, margin, limit) == FillableSum(a, margin, limit) + FillableSum(b, margin, limit)
  {
    if a == [] {
      assert a + b == b;
    } else {
      FillableSumAppend(a[1..], b, margin, limit);
      assert (a + b)[1..] == a[1..] + b;
    }
  }

  lemma {:induction false} StarCountAppend(a: seq<StarUnit>, b: seq<StarUnit>)
    ensures StarCount(a + b) == StarCount(a) + StarCount(b)
  {
    if b == [] {
      assert a + b == a;
    } else {
      StarCountAppend(a, b[..|b| - 1]);
      assert (a + b)[..|a + b| - 1] == a + b[..|b| - 1];
    }
  }

  /** Joining two star queries: each sees at least the other's minimum as its margin. */
  lemma FillableAppend(q: StarQuery, r: StarQuery, margin: nat, limit: nat, lo: nat, lo': nat)
    requires lo <= q.minLength && lo' <= r.minLength
    ensures Fillable(q.Append(r), margin, limit) <= Fillable(q, margin + lo', limit) * Fillable(r, margin + lo, limit)
  {
    var whole := margin + q.minLength + r.minLength;
    StarCountAppend(q.units, r.units);
    if whole <= limit {
      var b, k, k' := limit - whole + 1, StarCount(q.units), StarCount(r.units);
      PowAdd(b, k, k');
      PowMonotone(b, limit - margin - lo' - q.minLength + 1, k);
      PowMonotone(b, limit - margin - lo - r.minLength + 1, k');
      MulMonotoneBoth(Pow(b, k), Fillable(q, margin + lo', limit), Pow(b, k'), Fillable(r, margin + lo, limit));
    } else {
      MulMonotone(Fillable(q, margin + lo', limit), 0, Fillable(r, margin + lo, limit));
    }
  }

  lemma {:induction false} AppendAllFillable(queries: seq<StarQuery>, r: StarQuery, margin: nat, limit: nat, lo: nat)
    requires forall q :: q in queries ==> lo <= q.minLength
    ensures FillableSum(AppendAll(queries, r), margin, limit)
         <= FillableSum(queries, margin + r.minLength, limit) * Fillable(r, margin + lo, limit)
  {
    if queries != [] {
      var q, rest := queries[0], queries[1..];
      assert q in queries;
      AppendAllFillable(rest, r, margin, limit, lo);
      FillableAppend(q, r, margin, limit, lo, r.minLength);
      Distribute(Fillable(q, margin + r.minLength, limit), FillableSum(rest, margin + r.minLength, limit), Fillable(r, margin + lo, limit));
      assert ([q.Append(r)] + AppendAll(rest, r))[1..] == AppendAll(rest, r);
    }
  }

  lemma Distribute(a: int, b: int, c: int)
    ensures (a + b) * c == a * c + b * c && c * (a + b) == c * a + c * b
  {
  }

  lemma {:induction false} RowFillable(q: StarQuery, after: seq<StarQuery>, margin: nat, limit: nat, lo: nat, lo': nat)
    requires lo <= q.minLength && forall r :: r in after ==> lo' <= r.minLength
    ensures FillableSum(Row(q, after, limit), margin, limit)
         <= Fillable(q, margin + lo', limit) * FillableSum(after, margin + lo, limit)
  {
    var f := Fillable(q, margin + lo', limit);
    if after != [] {
      var r, rest := after[0], after[1..];
      assert r in after;
      RowFillable(q, rest, margin, limit, lo, lo');
      FillableAppend(q, r, margin, limit, lo, lo');
      Distribute(Fillable(r, margin + lo, limit), FillableSum(rest, margin + lo, limit), f);
      var head := if q.minLength + r.minLength > limit then [] else [q.Append(r)];
      FillableSumAppend(head, Row(q, rest, limit), margin, limit);
      FillableSumOne(q.Append(r), margin, limit);
      MulMonotone(f, 0, Fillable(r, margin + lo, limit));
    }
  }

  lemma FillableSumOne(q: StarQuery, margin: nat, limit: nat)
    ensures FillableSum([q], margin, limit) == Fillable(q, margin, limit)
  {
    assert [q][1..] == [];
  }

  lemma {:induction false} ProductFillable(before: seq<StarQuery>, after: seq<StarQuery>, margin: nat, limit: nat, lo: nat, lo': nat)
    requires forall q :: q in before ==> lo <= q.minLength
    requires forall r :: r in after ==> lo' <= r.minLength
    ensures FillableSum(Product(before, after, limit), margin, limit)
         <= FillableSum(before, margin + lo', limit) * FillableSum(after, margin + lo, limit)
  {
    if before != [] {
      var q, rest := before[0], before[1..];
      assert q in before;
      ProductFillable(rest, after, margin, limit, lo, lo');
      RowFillable(q, after, margin, limit, lo, lo');
      FillableSumAppend(Row(q, after, limit), Product(rest, after, limit), margin, limit);
      Distribute(Fillable(q, margin + lo', limit), FillableSum(rest, margin + lo', limit), FillableSum(after, margin + lo, limit));
    }
  }

  lemma RaiseLeft(a: nat, f: nat, i: nat, g: nat)
    requires a <= f * g && f <= i
    ensures a <= i * g
  {
    MulMonotone(g, f, i);
  }

  lemma OneAlternativeFillable(queries: seq<StarQuery>, r: StarQuery, margin: nat, limit: nat, lo: nat, lo': nat)
    requires forall q :: q in queries ==> lo <= q.minLength
    requires lo' <= r.minLength
    ensures FillableSum(AppendAll(queries, r), margin, limit)
         <= FillableSum(queries, margin + lo', limit) * Fillable(r, margin + lo, limit)
  {
    AppendAllFillable(queries, r, margin, limit, lo);
    FillableSumAntitone(queries, margin + lo', margin + r.minLength, limit);
    RaiseLeft(FillableSum(AppendAll(queries, r), margin, limit), FillableSum(queries, margin + r.minLength, limit),
              FillableSum(queries, margin + lo', limit), Fillable(r, margin + lo, limit));
  }

  lemma AppendAlternativesFillable(queries: seq<StarQuery>, alt: seq<StarQuery>, margin: nat, limit: nat, lo: nat, lo': nat)
    requires forall q :: q in queries ==> lo <= q.minLength
    requires forall r :: r in alt ==> lo' <= r.minLength
    ensures FillableSum(AppendAlternatives(queries, alt, limit), margin, limit)
         <= FillableSum(queries, margin + lo', limit) * FillableSum(alt, margin + lo, limit)
  {
    var f, g := FillableSum(queries, margin + lo', limit), FillableSum(alt, margin + lo, limit);
    if |alt| == 0 {
      MulMonotone(f, 0, g);
    } else if |alt| == 1 {
      OneAlternativeFillable(queries, alt[0], margin, limit, lo, lo');
      FillableSumOne(alt[0], margin + lo, limit);
      assert alt == [alt[0]];
    } else {
      ProductFillable(queries, alt, margin, limit, lo, lo');
    }
  }

  /** A larger margin leaves less room. */
  lemma {:induction false} FillableSumAntitone(queries: seq<StarQuery>, margin: nat, margin': nat, limit: nat)
    requires margin <= margin'
    ensures FillableSum(queries, margin', limit) <= FillableSum(queries, margin, limit)
  {
    if queries != [] {
      FillableSumAntitone(queries[1..], margin, margin', limit);
      var q := queries[0];
      if margin' + q.minLength <= limit {
        PowMonotone(limit - margin' - q.minLength + 1, limit - margin - q.minLength + 1, StarCount(q.units));
      }
    }
  }

  lemma {:induction false} ShortEnoughFillable(queries: seq<StarQuery>, margin: nat, limit: nat)
    ensures FillableSum(ShortEnough(queries, limit), margin, limit) <= FillableSum(queries, margin, limit)
  {
    if queries != [] {
      ShortEnoughFillable(queries[1..], margin, limit);
      var head := if queries[0].minLength <= limit then [queries[0]] else [];
      FillableSumAppend(head, ShortEnough(queries[1..], limit), margin, limit);
      FillableSumOne(queries[0], margin, limit);
    }
  }

  lemma {:induction false} PushAllIsAppendAll(queries: seq<StarQuery>, u: StarUnit)
    ensures PushAll(queries, u) == AppendAll(queries, EMPTY.PushBack(u))
  {
    if queries != [] {
      PushAllIsAppendAll(queries[1..], u);
      PushIsAppend(queries[0], u);
    }
  }

  lemma PushIsAppend(q: StarQuery, u: StarUnit)
    ensures q.PushBack(u) == q.Append(EMPTY.PushBack(u))
  {
    assert [] + [u] == [u];
  }

  /** One leaf, with the margin of its place, gives no more than its factor in the estimate. */
  lemma LeafFillable(u: Unit, margin: nat, m: nat, limit: uint32)
    requires u.Word? || u.QMark? || u.Star?
    ensures Fillable(EMPTY.PushBack(LeafOf(u)), margin, limit) <= Ideal(u, margin, m, limit)
  {
    LeafMinLength(u);
    var q := EMPTY.PushBack(LeafOf(u));
    if margin + q.minLength <= limit {
      var b := limit - margin - q.minLength + 1;
      if u.Star? {
        PowOne(b);
        assert (limit - margin) % TWO_32 == limit - margin;
      } else {
        assert Pow(b, 0) == 1;
      }
    }
  }

  lemma PowOne(b: nat)
    ensures Pow(b, 1) == b
  {
    assert Pow(b, 0) == 1;
  }

  lemma LeafMinLength(u: Unit)
    requires u.Word? || u.QMark? || u.Star?
    ensures var q := EMPTY.PushBack(LeafOf(u)); q.minLength == MinLen(u) && StarCount(q.units) == if u.Star? then 1 else 0
  {
    Sequences.InitOfSnoc([], LeafOf(u));
    Sequences.EmptyLeft([LeafOf(u)]);
  }

  /** At most m words for every regex. */
  ghost predicate AtMost(words: RegexWords, m: nat)
  {
    forall t :: |words(t)| <= m
  }

  lemma {:induction false} WordsFillable(words: seq<Word>, margin: nat, limit: nat)
    ensures AllRegexFree(WordUnits(words))
    ensures FillableSum(StarQueriesOfAny(WordUnits(words), limit), margin, limit) <= |words|
  {
    WordUnitsAreWords(words);
    if words != [] {
      var front, last := words[..|words| - 1], Word(words[|words| - 1]);
      WordsFillable(front, margin, limit);
      StarQueriesOfAnyAppend(WordUnits(front), [last], limit);
      assert [last][1..] == [];
      assert StarQueriesOfAny([last], limit) == StarQueriesOf(last, limit) + [] == [EMPTY.PushBack(LeafOf(last))];
      FillableSumAppend(StarQueriesOfAny(WordUnits(front), limit), [EMPTY.PushBack(LeafOf(last))], margin, limit);
      FillableSumOne(EMPTY.PushBack(LeafOf(last)), margin, limit);
      assert StarCount([SWord(last.text)][..0]) == 0;
    }
  }

  lemma RegexFreeAppend(a: seq<Unit>, b: seq<Unit>)
    requires AllRegexFree(a) && AllRegexFree(b)
    ensures AllRegexFree(a + b)
  {
    assert forall c :: c in a + b ==> c in a || c in b;
  }

  lemma {:induction false} StarQueriesOfAnyAppend(a: seq<Unit>, b: seq<Unit>, limit: nat)
    requires AllRegexFree(a) && AllRegexFree(b)
    ensures AllRegexFree(a + b)
    ensures StarQueriesOfAny(a + b, limit) == StarQueriesOfAny(a, limit) + StarQueriesOfAny(b, limit)
  {
    RegexFreeAppend(a, b);
    if a == [] {
      Sequences.EmptyLeft(b);
      Sequences.EmptyLeft(StarQueriesOfAny(b, limit));
    } else {
      StarQueriesOfAnyAppend(a[1..], b, limit);
      Sequences.TailOfAppend(a, b);
      Sequences.AppendAssoc(StarQueriesOf(a[0], limit), StarQueriesOfAny(a[1..], limit), StarQueriesOfAny(b, limit));
    }
  }

  lemma {:induction false} IdealSumCons(cs: seq<Unit>, n: nat, margin: nat, m: nat, limit: uint32)
    requires 1 <= n <= |cs|
    ensures IdealSum(cs, n, margin, m, limit)
         == Ideal(cs[0], margin, m, limit) + IdealSum(cs[1..], n - 1, margin, m, limit)
  {
    if n > 1 {
      IdealSumCons(cs, n - 1, margin, m, limit);
    }
  }

  lemma {:induction false} IdealProductCons(cs: seq<Unit>, n: nat, whole: nat, m: nat, limit: uint32)
    requires 1 <= n <= |cs|
    ensures IdealProduct(cs, n, whole, m, limit)
         == Ideal(cs[0], Max(whole - MinLen(cs[0]), 0), m, limit) * IdealProduct(cs[1..], n - 1, whole, m, limit)
  {
    var f := Ideal(cs[0], Max(whole - MinLen(cs[0]), 0), m, limit);
    if n == 1 {
      assert IdealProduct(cs, 1, whole, m, limit) == IdealProduct(cs, 0, whole, m, limit) * f;
    } else {
      IdealProductCons(cs, n - 1, whole, m, limit);
      MulAssoc(f, IdealProduct(cs[1..], n - 2, whole, m, limit), Ideal(cs[n - 1], Max(whole - MinLen(cs[n - 1]), 0), m, limit));
      assert cs[1..][n - 2] == cs[n - 1];
    }
  }

  lemma {:induction false} LengthsBounded(queries: seq<StarQuery>) returns (hi: nat)
    ensures forall q :: q in queries ==> q.minLength <= hi
  {
    hi := 0;
    if queries != [] {
      hi := LengthsBounded(queries[1..]);
      hi := Max(hi, queries[0].minLength);
    }
  }

  ghost predicate AtLeast(queries: seq<StarQuery>, lo: nat)
  {
    forall q :: q in queries ==> lo <= q.minLength
  }

  /** Extending by a replaced unit: nothing at all, or at least its minimum length more. */
  lemma ExtendReplaced(queries: seq<StarQuery>, u: Unit, words: RegexWords, limit: nat, lo: nat)
    requires Weight(u) < UINT32_MAX && AtLeast(queries, lo)
    ensures AtLeast(Extend(queries, Replaced(u, words), limit), lo + MinLen(u))
    ensures MinLen(u) == UINT32_MAX ==> Extend(queries, Replaced(u, words), limit) == []
  {
    var hi := LengthsBounded(queries);
    ReplacedLengths(u, words);
    RangeWithinWeight(Replaced(u, words));
    ExtendBetween(queries, Replaced(u, words), limit, lo, hi);
  }

  lemma AlternativesAtLeast(cs: seq<Unit>, words: RegexWords, limit: nat)
    requires WeightMax(cs) < UINT32_MAX
    ensures AtLeast(StarQueriesOfAny(ReplacedAll(cs, words), limit), LeastOfMins(cs))
  {
    ReplacedAnyLengths(cs, words);
    StarQueriesOfAnyBetween(ReplacedAll(cs, words), limit);
  }

  lemma WordsAtLeast(words: seq<Word>, limit: nat)
    ensures AllRegexFree(WordUnits(words))
    ensures AtLeast(StarQueriesOfAny(WordUnits(words), limit), 1)
  {
    WordUnitsAreWords(words);
    WordUnitsLengths(words);
    StarQueriesOfAnyBetween(WordUnits(words), limit);
  }

  /** The star queries of a unit, in a place with the given margin, give no more than its estimate. */
  lemma {:induction false} UnitFillable(u: Unit, words: RegexWords, margin: nat, m: nat, limit: uint32)
    requires Weight(u) < UINT32_MAX && AtMost(words, m)
    ensures FillableSum(StarQueriesOf(Replaced(u, words), limit), margin, limit) <= Ideal(u, margin, m, limit)
    decreases u, 2
  {
    match u
    case Regex(t) =>
      WordsFillable(words(t), margin, limit);
    case Alternation(cs) =>
      AlternativesFillable(cs, words, margin, m, limit);
    case Concat(cs) =>
      ConcatFillable(cs, words, margin, m, limit);
    case Word(_) => LeafUnitFillable(u, words, margin, m, limit);
    case QMark => LeafUnitFillable(u, words, margin, m, limit);
    case Star => LeafUnitFillable(u, words, margin, m, limit);
  }

  lemma LeafUnitFillable(u: Unit, words: RegexWords, margin: nat, m: nat, limit: uint32)
    requires u.Word? || u.QMark? || u.Star?
    ensures FillableSum(StarQueriesOf(Replaced(u, words), limit), margin, limit) <= Ideal(u, margin, m, limit)
  {
    LeafFillable(u, margin, m, limit);
    FillableSumOne(EMPTY.PushBack(LeafOf(u)), margin, limit);
  }

  lemma {:induction false} ConcatFillable(cs: seq<Unit>, words: RegexWords, margin: nat, m: nat, limit: uint32)
    requires WeightSum(cs) < UINT32_MAX && AtMost(words, m)
    ensures FillableSum(StarQueriesOf(Concat(ReplacedAll(cs, words)), limit), margin, limit) <= Ideal(Concat(cs), margin, m, limit)
    decreases cs, 2
  {
    var all := ExtendAll([EMPTY], ReplacedAll(cs, words), limit);
    ShortEnoughFillable(all, margin, limit);
    ExtendAllFillable([EMPTY], cs, words, margin, m, limit, 0);
    if SumOfMins(cs) != UINT32_MAX {
      FillableSumOne(EMPTY, margin + SumOfMins(cs), limit);
      assert Fillable(EMPTY, margin + SumOfMins(cs), limit) <= 1;
      MulMonotone(IdealProduct(cs, |cs|, margin + SumOfMins(cs), m, limit), FillableSum([EMPTY], margin + SumOfMins(cs), limit), 1);
    }
  }

  lemma AlternativesCons(cs: seq<Unit>, words: RegexWords, limit: uint32)
    requires cs != []
    ensures StarQueriesOfAny(ReplacedAll(cs, words), limit)
         == StarQueriesOf(Replaced(cs[0], words), limit) + StarQueriesOfAny(ReplacedAll(cs[1..], words), limit)
  {
    assert ReplacedAll(cs, words)[1..] == ReplacedAll(cs[1..], words);
  }

  lemma {:induction false} AlternativesFillable(cs: seq<Unit>, words: RegexWords, margin: nat, m: nat, limit: uint32)
    requires WeightMax(cs) < UINT32_MAX && AtMost(words, m)
    ensures FillableSum(StarQueriesOfAny(ReplacedAll(cs, words), limit), margin, limit) <= IdealSum(cs, |cs|, margin, m, limit)
    decreases cs, 0
  {
    if cs != [] {
      UnitFillable(cs[0], words, margin, m, limit);
      AlternativesFillable(cs[1..], words, margin, m, limit);
      IdealSumCons(cs, |cs|, margin, m, limit);
      FillableSumAppend(StarQueriesOf(Replaced(cs[0], words), limit), StarQueriesOfAny(ReplacedAll(cs[1..], words), limit), margin, limit);
      AlternativesCons(cs, words, limit);
    }
  }

  lemma {:induction false} ExtendFillable(queries: seq<StarQuery>, u: Unit, words: RegexWords, margin: nat, m: nat,
                                          limit: uint32, lo: nat)
    requires Weight(u) < UINT32_MAX && AtMost(words, m) && AtLeast(queries, lo) && MinLen(u) != UINT32_MAX
    ensures FillableSum(Extend(queries, Replaced(u, words), limit), margin, limit)
         <= FillableSum(queries, margin + MinLen(u), limit) * Ideal(u, margin + lo, m, limit)
    decreases u, 1
  {
    match u
    case Regex(t) => ExtendRegexFillable(queries, t, words, margin, m, limit, lo);
    case Alternation(cs) => ExtendAlternationFillable(queries, cs, words, margin, m, limit, lo);
    case Concat(cs) => ExtendAllFillable(queries, cs, words, margin, m, limit, lo);
    case Word(_) => ExtendLeafFillable(queries, u, margin, m, limit, lo);
    case QMark => ExtendLeafFillable(queries, u, margin, m, limit, lo);
    case Star => ExtendLeafFillable(queries, u, margin, m, limit, lo);
  }

  lemma ExtendRegexFillable(queries: seq<StarQuery>, t: string, words: RegexWords, margin: nat, m: nat, limit: uint32, lo: nat)
    requires AtMost(words, m) && AtLeast(queries, lo)
    ensures FillableSum(Extend(queries, Replaced(Regex(t), words), limit), margin, limit)
         <= FillableSum(queries, margin + 1, limit) * m
  {
    WordsAtLeast(words(t), limit);
    WordsFillable(words(t), margin + lo, limit);
    var alt := StarQueriesOfAny(WordUnits(words(t)), limit);
    AppendAlternativesFillable(queries, alt, margin, limit, lo, 1);
    RaiseFactor(FillableSum(AppendAlternatives(queries, alt, limit), margin, limit), FillableSum(queries, margin + 1, limit),
                FillableSum(alt, margin + lo, limit), m);
  }

  lemma {:induction false} ExtendAlternationFillable(queries: seq<StarQuery>, cs: seq<Unit>, words: RegexWords, margin: nat, m: nat,
                                                     limit: uint32, lo: nat)
    requires WeightMax(cs) < UINT32_MAX && AtMost(words, m) && AtLeast(queries, lo)
    ensures FillableSum(AppendAlternatives(queries, StarQueriesOfAny(ReplacedAll(cs, words), limit), limit), margin, limit)
         <= FillableSum(queries, margin + LeastOfMins(cs), limit) * IdealSum(cs, |cs|, margin + lo, m, limit)
    decreases cs, 1
  {
    var alt := StarQueriesOfAny(ReplacedAll(cs, words), limit);
    var lo' := LeastOfMins(cs);
    AlternativesAtLeast(cs, words, limit);
    AlternativesFillable(cs, words, margin + lo, m, limit);
    AppendAlternativesFillable(queries, alt, margin, limit, lo, lo');
    RaiseFactor(FillableSum(AppendAlternatives(queries, alt, limit), margin, limit), FillableSum(queries, margin + lo', limit),
                FillableSum(alt, margin + lo, limit), IdealSum(cs, |cs|, margin + lo, m, limit));
  }

  lemma ExtendLeafFillable(queries: seq<StarQuery>, u: Unit, margin: nat, m: nat, limit: uint32, lo: nat)
    requires (u.Word? || u.QMark? || u.Star?) && AtLeast(queries, lo)
    ensures FillableSum(PushAll(queries, LeafOf(u)), margin, limit)
         <= FillableSum(queries, margin + MinLen(u), limit) * Ideal(u, margin + lo, m, limit)
  {
    var r := EMPTY.PushBack(LeafOf(u));
    PushAllIsAppendAll(queries, LeafOf(u));
    LeafMinLength(u);
    AppendAllFillable(queries, r, margin, limit, lo);
    LeafFillable(u, margin + lo, m, limit);
    RaiseFactor(FillableSum(PushAll(queries, LeafOf(u)), margin, limit), FillableSum(queries, margin + MinLen(u), limit),
                Fillable(r, margin + lo, limit), Ideal(u, margin + lo, m, limit));
  }

  lemma RaiseFactor(a: nat, f: nat, g: nat, i: nat)
    requires a <= f * g && g <= i
    ensures a <= f * i
  {
    MulMonotone(f, g, i);
  }

  /** What ExtendAllFillable states, for one list of parts. */
  ghost predicate WithinEstimate(queries: seq<StarQuery>, cs: seq<Unit>, after: seq<StarQuery>, margin: nat, m: nat, limit: uint32, lo: nat)
  {
    && (SumOfMins(cs) == UINT32_MAX ==> after == [])
    && (SumOfMins(cs) != UINT32_MAX ==>
          FillableSum(after, margin, limit)
          <= FillableSum(queries, margin + SumOfMins(cs), limit) * IdealProduct(cs, |cs|, margin + lo + SumOfMins(cs), m, limit))
  }

  lemma {:induction false} ExtendAllFillable(queries: seq<StarQuery>, cs: seq<Unit>, words: RegexWords, margin: nat, m: nat,
                                             limit: uint32, lo: nat)
    requires WeightSum(cs) < UINT32_MAX && AtMost(words, m) && AtLeast(queries, lo)
    ensures WithinEstimate(queries, cs, ExtendAll(queries, ReplacedAll(cs, words), limit), margin, m, limit, lo)
    decreases cs, 1
  {
    if cs != [] {
      var c, rest := cs[0], cs[1..];
      var next := Extend(queries, Replaced(c, words), limit);
      var after := ExtendAll(next, ReplacedAll(rest, words), limit);
      ExtendAllCons(queries, cs, words, limit);
      ExtendReplaced(queries, c, words, limit, lo);
      SumOfMinsCons(cs);
      if MinLen(c) == UINT32_MAX {
        ExtendAllOfNothing(ReplacedAll(rest, words), limit);
      } else {
        ExtendAllFillable(next, rest, words, margin, m, limit, lo + MinLen(c));
        if SumOfMins(rest) != UINT32_MAX {
          ExtendOneMore(queries, cs, words, next, after, margin, m, limit, lo);
        }
      }
    }
  }

  lemma {:induction false} ExtendOneMore(queries: seq<StarQuery>, cs: seq<Unit>, words: RegexWords, next: seq<StarQuery>,
                                         after: seq<StarQuery>, margin: nat, m: nat, limit: uint32, lo: nat)
    requires WeightSum(cs) < UINT32_MAX && AtMost(words, m) && AtLeast(queries, lo)
    requires cs != [] && MinLen(cs[0]) != UINT32_MAX && SumOfMins(cs[1..]) != UINT32_MAX
    requires next == Extend(queries, Replaced(cs[0], words), limit)
    requires WithinEstimate(next, cs[1..], after, margin, m, limit, lo + MinLen(cs[0]))
    ensures WithinEstimate(queries, cs, after, margin, m, limit, lo)
    decreases cs, 0
  {
    ExtendFillable(queries, cs[0], words, margin + SumOfMins(cs[1..]), m, limit, lo);
    WithinEstimateStep(queries, cs, next, after, margin, m, limit, lo);
  }

  lemma ExtendAllCons(queries: seq<StarQuery>, cs: seq<Unit>, words: RegexWords, limit: nat)
    requires cs != []
    ensures ExtendAll(queries, ReplacedAll(cs, words), limit)
         == ExtendAll(Extend(queries, Replaced(cs[0], words), limit), ReplacedAll(cs[1..], words), limit)
  {
    assert ReplacedAll(cs, words)[0] == Replaced(cs[0], words) && ReplacedAll(cs, words)[1..] == ReplacedAll(cs[1..], words);
  }

  lemma WithinEstimateStep(queries: seq<StarQuery>, cs: seq<Unit>, next: seq<StarQuery>, after: seq<StarQuery>,
                           margin: nat, m: nat, limit: uint32, lo: nat)
    requires cs != [] && MinLen(cs[0]) != UINT32_MAX && SumOfMins(cs[1..]) != UINT32_MAX && WeightSum(cs) < UINT32_MAX
    requires WithinEstimate(next, cs[1..], after, margin, m, limit, lo + MinLen(cs[0]))
    requires FillableSum(next, margin + SumOfMins(cs[1..]), limit)
          <= FillableSum(queries, margin + SumOfMins(cs[1..]) + MinLen(cs[0]), limit) * Ideal(cs[0], margin + SumOfMins(cs[1..]) + lo, m, limit)
    ensures WithinEstimate(queries, cs, after, margin, m, limit, lo)
  {
    var c, rest := cs[0], cs[1..];
    var whole := margin + lo + MinLen(c) + SumOfMins(rest);
    SumOfMinsCons(cs);
    IdealProductCons(cs, |cs|, whole, m, limit);
    ChainProducts(FillableSum(after, margin, limit),
                  FillableSum(next, margin + SumOfMins(rest), limit),
                  IdealProduct(rest, |rest|, whole, m, limit),
                  FillableSum(queries, margin + SumOfMins(cs), limit),
                  Ideal(c, whole - MinLen(c), m, limit));
  }

  lemma ChainProducts(a: nat, b: nat, p: nat, c: nat, d: nat)
    requires a <= b * p && b <= c * d
    ensures a <= c * (d * p)
  {
    MulMonotone(p, b, c * d);
    MulAssoc(c, d, p);
  }

  /** Each star query gives at most its bound. */
  lemma {:induction false} EmittedAtMostFillable(queries: seq<StarQuery>, options: Options)
    ensures EmittedTotal(queries, options) <= FillableSum(queries, 0, options.maxLength)
  {
    if queries != [] {
      var front, last := queries[..|queries| - 1], queries[|queries| - 1];
      EmittedAtMostFillable(front, options);
      assert queries == front + [last];
      FillableSumAppend(front, [last], 0, options.maxLength);
      FillableSumOne(last, 0, options.maxLength);
      if Kept(last, options) {
        FillingsBound(options.maxLength - last.minLength, StarCount(last.units));
      }
    }
  }

  /** With at most m words for every regex, a tree gives at most as many norm queries as the ideal estimate for m. */
  lemma EstimateIsUpperBound(root: Unit, words: RegexWords, m: nat, options: Options)
    requires Weight(root) < UINT32_MAX && AtMost(words, m)
    ensures EmittedTotal(StarQueriesOf(Replaced(root, words), options.maxLength), options) <= Ideal(root, 0, m, options.maxLength)
  {
    EmittedAtMostFillable(StarQueriesOf(Replaced(root, words), options.maxLength), options);
    UnitFillable(root, words, 0, m, options.maxLength);
  }

  // ---------------------------------------------------------------- choosing the number of words

  /** A comparison whose result never goes down. */
  ghost predicate Rising(comparer: uint64 -> int, min: uint64, max: uint64)
  {
    forall i: uint64, j: uint64 :: min < i <= j <= max ==>
      (comparer(j) < 0 ==> comparer(i) < 0) && (comparer(i) > 0 ==> comparer(j) > 0)
  }

  /** The upper middle of an interval with more than one value. */
  function Middle(lo: uint64, hi: uint64): (m: uint64)
    requires lo < hi
    ensures lo < m <= hi
  {
    lo + (hi - lo) / 2 + 1
  }

  /** Halving the interval until a value hits the target or one is left. */
  function Searched(min: uint64, max: uint64, comparer: uint64 -> int): uint64
    decreases max - min
  {
    if min >= max then min
    else
      var m := Middle(min, max);
      if comparer(m) == 0 then m
      else if comparer(m) < 0 then Searched(m, max, comparer)
      else Searched(min, m - 1, comparer)
  }

  /** What a search between min and max finds: a value that passes the comparison, unless it is min, which is never
      probed. When the comparison rises, everything above the result is at least as large as the target, and larger
      unless the result hits it. */
  ghost predicate FoundBy(min: uint64, r: uint64, max: uint64, comparer: uint64 -> int)
  {
    && min <= r <= max && (r == min || comparer(r) <= 0)
    && (Rising(comparer, min, max) ==>
          forall i: uint64 :: r < i <= max ==> comparer(i) > 0 || (r > min && comparer(r) == 0 && comparer(i) == 0))
  }

  /** Everything below lo and above hi has been settled. */
  ghost predicate Narrowed(min: uint64, lo: uint64, hi: uint64, max: uint64, comparer: uint64 -> int)
  {
    && min <= lo <= hi <= max && (lo == min || comparer(lo) < 0)
    && (Rising(comparer, min, max) ==> forall i: uint64 :: hi < i <= max ==> comparer(i) > 0)
  }

  lemma {:induction false} SearchedIsFound(min: uint64, lo: uint64, hi: uint64, max: uint64, comparer: uint64 -> int)
    requires Narrowed(min, lo, hi, max, comparer)
    ensures FoundBy(min, Searched(lo, hi, comparer), max, comparer)
    decreases hi - lo
  {
    if lo < hi {
      var m := Middle(lo, hi);
      if comparer(m) < 0 {
        SearchedIsFound(min, m, hi, max, comparer);
      } else if comparer(m) > 0 {
        SearchedIsFound(min, lo, m - 1, max, comparer);
      }
    }
  }

  lemma SearchStep(lo: uint64, hi: uint64, m: uint64, comparer: uint64 -> int)
    requires lo < hi && m == Middle(lo, hi)
    ensures comparer(m) == 0 ==> Searched(lo, hi, comparer) == Searched(m, m, comparer)
    ensures comparer(m) < 0 ==> Searched(lo, hi, comparer) == Searched(m, hi, comparer)
    ensures comparer(m) > 0 ==> Searched(lo, hi, comparer) == Searched(lo, m - 1, comparer)
  {
  }

  /** `binary_search`. */
  method BinarySearch(min: uint64, max: uint64, comparer: uint64 -> int) returns (r: uint64)
    requires min <= max
    ensures r == Searched(min, max, comparer) && FoundBy(min, r, max, comparer)
  {
    ghost var goal := Searched(min, max, comparer);
    var lo: uint64, hi: uint64 := min, max;
    while lo < hi
      invariant lo <= hi && Searched(lo, hi, comparer) == goal
    {
      var m := Middle(lo, hi);
      SearchStep(lo, hi, m, comparer);
      var cmp := comparer(m);
      if cmp == 0 {
        SearchedIsFound(min, min, max, max, comparer);
        return m;
      } else if cmp < 0 {
        lo := m;
      } else {
        hi := m - 1;
      }
    }
    SearchedIsFound(min, min, max, max, comparer);
    return lo;
  }

  /** The regex index: at most so many words that match a regex. */
  type MatchQuery = (string, uint32) -> seq<Word>

  ghost predicate RespectsMaximum(index: MatchQuery)
  {
    forall t, k: uint32 :: |index(t, k)| <= k
  }

  /** The words found for each regex; the index takes the maximum as a 32-bit number. */
  function WordsFor(index: MatchQuery, best: uint64): RegexWords
  {
    t => index(t, best % TWO_32)
  }

  method ReplaceRegexes(unit: Unit, index: MatchQuery, best: uint64) returns (r: Unit)
    ensures r == Replaced(unit, WordsFor(index, best))
    decreases unit
  {
    match unit
    case Regex(t) =>
      var matches := index(t, best % TWO_32);
      var alt: seq<Unit> := [];
      assert matches[..0] == [];
      for i := 0 to |matches|
        invariant alt == WordUnits(matches[..i])
      {
        assert matches[..i + 1][..i] == matches[..i];
        alt := alt + [Word(matches[i])];
      }
      assert matches[..|matches|] == matches;
      r := Alternation(alt);
    case Concat(cs) =>
      var children := ReplaceInAll(cs, index, best);
      r := Concat(children);
    case Alternation(cs) =>
      var children := ReplaceInAll(cs, index, best);
      r := Alternation(children);
    case Word(_) => r := unit;
    case QMark => r := unit;
    case Star => r := unit;
  }

  method ReplaceInAll(cs: seq<Unit>, index: MatchQuery, best: uint64) returns (r: seq<Unit>)
    ensures r == ReplacedAll(cs, WordsFor(index, best))
    decreases cs
  {
    r := [];
    ghost var words := WordsFor(index, best);
    ghost var goal := ReplacedAll(cs, words);
    assert cs[0..] == cs && r + goal == goal;
    for i := 0 to |cs|
      invariant r + ReplacedAll(cs[i..], words) == goal
    {
      ReplacedNext(r, cs, words, i);
      var child := ReplaceRegexes(cs[i], index, best);
      r := r + [child];
    }
    assert cs[|cs|..] == [];
    Sequences.EmptyRight(r);
  }

  lemma ReplacedNext(done: seq<Unit>, cs: seq<Unit>, words: RegexWords, i: nat)
    requires i < |cs|
    ensures done + ReplacedAll(cs[i..], words) == (done + [Replaced(cs[i], words)]) + ReplacedAll(cs[i + 1..], words)
  {
    Sequences.DropNext(cs, i);
    Sequences.AppendAssoc(done, [Replaced(cs[i], words)], ReplacedAll(cs[i + 1..], words));
  }

  lemma {:induction false} NothingToReplace(u: Unit, words: RegexWords)
    requires RegexFree(u)
    ensures Replaced(u, words) == u
    decreases u, 1
  {
    match u
    case Concat(cs) => NothingToReplaceAll(cs, words);
    case Alternation(cs) => NothingToReplaceAll(cs, words);
    case Word(_) =>
    case QMark =>
    case Star =>
  }

  lemma {:induction false} NothingToReplaceAll(cs: seq<Unit>, words: RegexWords)
    requires AllRegexFree(cs)
    ensures ReplacedAll(cs, words) == cs
    decreases cs, 0
  {
    if cs != [] {
      NothingToReplace(cs[0], words);
      NothingToReplaceAll(cs[1..], words);
    }
  }

  /** The comparison of an estimate with the budget. */
  function CompareTo(budget: uint64, estimate: uint64): int
  {
    if estimate == budget then 0 else if estimate < budget then -1 else 1
  }

  function Comparer(estimate: UnitResult, budget: uint64): uint64 -> int
  {
    (m: uint64) => CompareTo(budget, estimate.At(m))
  }

  /** The same for the estimate of a whole tree. */
  function TreeComparer(root: Unit, options: Options): uint64 -> int
  {
    (m: uint64) => CompareTo(options.maxNormQueries, Estimate(root, 0, m, options.maxLength))
  }

  /** The number of words per regex that the program settles on. */
  function ChosenMatches(root: Unit, options: Options): uint64
  {
    var comparer := TreeComparer(root, options);
    if comparer(options.maxRegexMatches) <= 0 then options.maxRegexMatches
    else Searched(0, options.maxRegexMatches, comparer)
  }

  lemma ChosenIsFound(root: Unit, options: Options)
    ensures FoundBy(0, ChosenMatches(root, options), options.maxRegexMatches, TreeComparer(root, options))
  {
    SearchedIsFound(0, 0, options.maxRegexMatches, options.maxRegexMatches, TreeComparer(root, options));
  }

  /** The search probes positive numbers only. */
  lemma {:induction false} SameSearch(min: uint64, max: uint64, f: uint64 -> int, g: uint64 -> int)
    requires forall m: uint64 :: m > 0 ==> f(m) == g(m)
    ensures Searched(min, max, f) == Searched(min, max, g)
    decreases max - min
  {
    if min < max {
      var m := Middle(min, max);
      SameSearch(m, max, f, g);
      SameSearch(min, m - 1, f, g);
    }
  }

  /** The ideal estimate for m words per regex. */
  function IdealFor(root: Unit, m: nat, options: Options): nat
  {
    Ideal(root, 0, m, options.maxLength)
  }

  /** While the ideal estimate fits into 64 bits, the comparison sees it as it is. */
  lemma ComparesIdeal(root: Unit, options: Options, m: uint64)
    requires Weight(root) < UINT32_MAX && m > 0 && IdealFor(root, m, options) <= UINT64_MAX
    ensures TreeComparer(root, options)(m) == CompareTo(options.maxNormQueries, IdealFor(root, m, options))
  {
    EstimateTracks(root, 0, m, options.maxLength);
  }

  lemma IdealForFits(root: Unit, options: Options, m: uint64)
    requires m <= options.maxRegexMatches && IdealFor(root, options.maxRegexMatches, options) <= UINT64_MAX
    ensures IdealFor(root, m, options) <= UINT64_MAX
  {
    IdealMonotone(root, 0, m, options.maxRegexMatches, options.maxLength);
  }

  lemma ComparerRises(root: Unit, options: Options)
    requires Weight(root) < UINT32_MAX && IdealFor(root, options.maxRegexMatches, options) <= UINT64_MAX
    ensures Rising(TreeComparer(root, options), 0, options.maxRegexMatches)
  {
    var comparer := TreeComparer(root, options);
    forall i: uint64, j: uint64 | 0 < i <= j <= options.maxRegexMatches
      ensures (comparer(j) < 0 ==> comparer(i) < 0) && (comparer(i) > 0 ==> comparer(j) > 0)
    {
      IdealForFits(root, options, i);
      IdealForFits(root, options, j);
      ComparesIdeal(root, options, i);
      ComparesIdeal(root, options, j);
      IdealMonotone(root, 0, i, j, options.maxLength);
    }
  }

  /** best is the most words per regex that the budget allows, up to the permitted maximum. */
  ghost predicate BestChoice(root: Unit, options: Options, best: uint64)
  {
    && (best > 0 ==> IdealFor(root, best, options) <= options.maxNormQueries)
    && (forall m: uint64 :: best < m <= options.maxRegexMatches ==>
          IdealFor(root, m, options) > options.maxNormQueries || (best > 0 && IdealFor(root, m, options) == IdealFor(root, best, options)))
  }

  lemma OneWordIsTooMuch(root: Unit, options: Options)
    requires BestChoice(root, options, 0) && options.maxRegexMatches > 0
    ensures IdealFor(root, 1, options) > options.maxNormQueries
  {
    var one: uint64 := 1;
    assert IdealFor(root, one, options) > options.maxNormQueries;
  }

  /** The number of words chosen is the largest one that the budget allows, if the estimates fit into 64 bits. */
  lemma ChosenIsBest(root: Unit, options: Options)
    requires Weight(root) < UINT32_MAX && IdealFor(root, options.maxRegexMatches, options) <= UINT64_MAX
    ensures BestChoice(root, options, ChosenMatches(root, options))
  {
    ChosenIsFound(root, options);
    ComparerRises(root, options);
    FoundIsBest(root, options, ChosenMatches(root, options));
  }

  lemma FoundIsBest(root: Unit, options: Options, best: uint64)
    requires Weight(root) < UINT32_MAX && IdealFor(root, options.maxRegexMatches, options) <= UINT64_MAX
    requires FoundBy(0, best, options.maxRegexMatches, TreeComparer(root, options))
    requires Rising(TreeComparer(root, options), 0, options.maxRegexMatches)
    ensures BestChoice(root, options, best)
  {
    var comparer := TreeComparer(root, options);
    if best > 0 {
      IdealForFits(root, options, best);
      ComparesIdeal(root, options, best);
    }
    forall m: uint64 | best < m <= options.maxRegexMatches
      ensures IdealFor(root, m, options) > options.maxNormQueries || (best > 0 && IdealFor(root, m, options) == IdealFor(root, best, options))
    {
      IdealForFits(root, options, m);
      ComparesIdeal(root, options, m);
      assert comparer(m) > 0 || (best > 0 && comparer(best) == 0 && comparer(m) == 0);
    }
  }

  /** The estimate for the number of words chosen is within the budget whenever it is exact. */
  lemma ChosenIsWithinBudget(root: Unit, options: Options)
    requires Weight(root) < UINT32_MAX
    ensures var best := ChosenMatches(root, options);
            best <= options.maxRegexMatches
            && (best > 0 && IdealFor(root, best, options) <= UINT64_MAX ==> IdealFor(root, best, options) <= options.maxNormQueries)
  {
    var best := ChosenMatches(root, options);
    ChosenIsFound(root, options);
    if best > 0 && IdealFor(root, best, options) <= UINT64_MAX {
      ComparesIdeal(root, options, best);
    }
  }

  /** No number of words is chosen exactly when one word per regex is estimated to be too much. */
  lemma NothingChosenIff(root: Unit, options: Options)
    requires Weight(root) < UINT32_MAX && IdealFor(root, options.maxRegexMatches, options) <= UINT64_MAX
    requires options.maxRegexMatches > 0
    ensures ChosenMatches(root, options) == 0 <==> IdealFor(root, 1, options) > options.maxNormQueries
  {
    var best := ChosenMatches(root, options);
    ChosenIsBest(root, options);
    if best == 0 {
      OneWordIsTooMuch(root, options);
    } else {
      IdealMonotone(root, 0, 1, best, options.maxLength);
    }
  }

  lemma SameComparison(estimate: UnitResult, root: Unit, options: Options)
    requires Computes(estimate, root, 0, options.maxLength)
    ensures forall m: uint64 :: m > 0 ==> Comparer(estimate, options.maxNormQueries)(m) == TreeComparer(root, options)(m)
  {
  }

  method ChooseForTree(root: Unit, options: Options) returns (best: uint64)
    requires Weight(root) < UINT32_MAX && options.maxRegexMatches > 0
    ensures best == ChosenMatches(root, options)
  {
    var estimate := EstimateImpl(root, MinLengthMargin(0, 0), options.maxLength);
    var comparer := Comparer(estimate, options.maxNormQueries);
    SameComparison(estimate, root, options);
    SameSearch(0, options.maxRegexMatches, comparer, TreeComparer(root, options));
    if comparer(options.maxRegexMatches) <= 0 {
      best := options.maxRegexMatches;
    } else {
      best := BinarySearch(0, options.maxRegexMatches, comparer);
    }
  }

  /** The words per regex of a run: none are needed without regexes. */
  function WordsPerRegex(root: Unit, options: Options): uint64
  {
    if RegexFree(root) then 0 else ChosenMatches(root, options)
  }

  /** `normalize_regexes`: every regex is replaced by the words found for it, as many as were chosen for the tree; it
      fails exactly when there is a regex and none were chosen. */
  method NormalizeRegexes(root: Unit, index: MatchQuery, options: Options) returns (r: Result<Unit>)
    requires Weight(root) < UINT32_MAX
    requires !RegexFree(root) ==> options.maxRegexMatches > 0
    ensures r == if RegexFree(root) || WordsPerRegex(root, options) > 0
                 then Ok(Replaced(root, WordsFor(index, WordsPerRegex(root, options)))) else InvalidQuery(TooComplex)
  {
    if RegexFree(root) {
      NothingToReplace(root, WordsFor(index, 0));
      return Ok(root);
    }
    var bestMaxMatches := ChooseForTree(root, options);
    if bestMaxMatches == 0 {
      return InvalidQuery(TooComplex);
    }
    var replaced := ReplaceRegexes(root, index, bestMaxMatches);
    return Ok(replaced);
  }

  /** A query whose regexes were replaced never gives too many norm queries, as long as its estimate fits into 64 bits. */
  lemma ReplacedStaysInBudget(root: Unit, index: MatchQuery, best: uint64, options: Options)
    requires Weight(root) < UINT32_MAX && RespectsMaximum(index)
    requires IdealFor(root, best, options) <= options.maxNormQueries
    ensures EmittedTotal(StarQueriesOf(Replaced(root, WordsFor(index, best)), options.maxLength), options) <= options.maxNormQueries
  {
    forall t
      ensures |WordsFor(index, best)(t)| <= best
    {
      var k: uint32 := best % TWO_32;
      assert |index(t, k)| <= k;
    }
    EstimateIsUpperBound(root, WordsFor(index, best), best, options);
  }
}
