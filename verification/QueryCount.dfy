/** How many norm queries a query can give at most (src/netspeak/QueryNormalizer.cpp), counted on the query itself. */
module QueryCounts {
  import opened MachineInts
  import opened Combinatorics
  import opened Permutations
  import opened Arrangements
  import opened LengthRanges
  import opened Sequences
  import opened NormQueries
  import opened RegexReplacement
  import opened QueryOptimizer
  import opened SimplifiedRanges
  import opened SimplifiedTrees
  import opened NormCounts
  import opened OptimizedCounts
  import opened UnitOrders
  import opened QueryNormalizers
  import opened Queries
  import S = SimpleQueries

  /** The parts of a query that are still to come. */
  datatype Parts = Done | Then(first: Query, rest: Parts)

  function InFront(cs: seq<Query>, rest: Parts): Parts
  {
    if cs == [] then rest else Then(cs[0], InFront(cs[1..], rest))
  }

  function QuerySize(q: Query): (s: nat)
    ensures s > 0
    decreases q, 1
  {
    match q
    case OptionSet(cs) => 1 + QuerySizes(cs)
    case OrderSet(cs) => 1 + QuerySizes(cs)
    case Alternation(cs) => 1 + QuerySizes(cs)
    case Concat(cs) => 1 + QuerySizes(cs)
    case _ => 1
  }

  function QuerySizes(cs: seq<Query>): nat
    decreases cs, 0
  {
    if cs == [] then 0 else QuerySize(cs[0]) + QuerySizes(cs[1..])
  }

  function PartsSize(parts: Parts): nat
  {
    match parts
    case Done => 0
    case Then(q, rest) => QuerySize(q) + PartsSize(rest)
  }

  lemma {:induction false} InFrontSize(cs: seq<Query>, rest: Parts)
    ensures PartsSize(InFront(cs, rest)) == QuerySizes(cs) + PartsSize(rest)
  {
    if cs != [] {
      InFrontSize(cs[1..], rest);
    }
  }

  /** The norm queries of the parts, behind n fixed words and k stars: one for every choice of an element of an option set
      or of an alternative, of a synonym, of a word for a regex, and of an order of an order set. */
  function PartsCount(parts: Parts, setup: Config, c: Counting, n: nat, k: nat): nat
    decreases PartsSize(parts), 0, 0
  {
    match parts
    case Done => c.AtEnd(n, k)
    case Then(q, rest) =>
      match q
      case Word(_) => PartsCount(rest, setup, c, n + 1, k)
      case QMark => PartsCount(rest, setup, c, n + 1, k)
      case Star => PartsCount(rest, setup, c, n, k + 1)
      case Plus => PartsCount(rest, setup, c, n + 1, k + 1)
      case Regex(t) => if setup.allowRegex then Scaled(|c.words(setup.fold(t))|, PartsCount(rest, setup, c, n + 1, k)) else 0
      case DictSet(t) =>
        PartsCount(rest, setup, c, n + 1, k)
        + SynonymsCount(setup.fold(t), Synonyms(setup.fold(t), setup.dictionary), rest, setup, c, n, k)
      case OptionSet(cs) =>
        (if |cs| <= 1 then PartsCount(rest, setup, c, n, k) else 0) + AlternativesCount(cs, rest, setup, c, n, k)
      case OrderSet(cs) =>
        InFrontSize(cs, rest);
        Scaled(Fact(|cs|), PartsCount(InFront(cs, rest), setup, c, n, k))
      case Alternation(cs) => AlternativesCount(cs, rest, setup, c, n, k)
      case Concat(cs) =>
        InFrontSize(cs, rest);
        PartsCount(InFront(cs, rest), setup, c, n, k)
  }

  function AlternativesCount(cs: seq<Query>, rest: Parts, setup: Config, c: Counting, n: nat, k: nat): nat
    decreases QuerySizes(cs) + PartsSize(rest), 1, |cs|
  {
    if cs == [] then 0
    else PartsCount(Then(cs[0], rest), setup, c, n, k) + AlternativesCount(cs[1..], rest, setup, c, n, k)
  }

  function SynonymsCount(text: string, synonyms: seq<string>, rest: Parts, setup: Config, c: Counting, n: nat, k: nat): nat
    decreases PartsSize(rest), 1, |synonyms|
  {
    if synonyms == [] then 0
    else
      var last := synonyms[|synonyms| - 1];
      SynonymsCount(text, synonyms[..|synonyms| - 1], rest, setup, c, n, k)
      + if last == text then 0 else PartsCount(rest, setup, c, n + |SplitWords(last)|, k)
  }

  function QueryCount(query: Query, setup: Config, words: RegexWords, options: Options): nat
  {
    PartsCount(Then(query, Done), setup, Counting(words, options, false), 0, 0)
  }

  // ---------------------------------------------------------------- the trees of the parts

  function PartTrees(parts: Parts, setup: Config, options: Options): Units
  {
    match parts
    case Done => Nil
    case Then(q, rest) => Cons(TreeOf(q, setup, options), PartTrees(rest, setup, options))
  }

  lemma {:induction false} InFrontTrees(cs: seq<Query>, rest: Parts, setup: Config, options: Options)
    ensures PartTrees(InFront(cs, rest), setup, options) == Joined(TreesOf(cs, setup, options), PartTrees(rest, setup, options))
  {
    if cs != [] {
      InFrontTrees(cs[1..], rest, setup, options);
      assert TreesOf(cs, setup, options)[1..] == TreesOf(cs[1..], setup, options);
    }
  }

  // ---------------------------------------------------------------- dictionary sets

  lemma {:induction false} WordUnitsCount(words: seq<string>, rest: Units, c: Counting, n: nat, k: nat)
    ensures Count(Joined(S.WordUnits(words), rest), c, n, k) == Count(rest, c, n + |words|, k)
  {
    if words != [] {
      var front, last := words[..|words| - 1], S.Word(words[|words| - 1]);
      WordUnitsCount(front, Cons(last, rest), c, n, k);
      JoinedSnoc(S.WordUnits(front), last, rest);
    }
  }

  lemma WordsTreeCount(words: seq<string>, rest: Units, c: Counting, n: nat, k: nat)
    requires |words| > 0
    ensures Count(Cons(WordsTree(words), rest), c, n, k) == Count(rest, c, n + |words|, k)
  {
    if |words| > 1 { WordUnitsCount(words, rest, c, n, k); }
  }

  lemma {:induction false} SynonymTreesCount(text: string, synonyms: seq<string>, rest: Parts, setup: Config, c: Counting, n: nat,
                                             k: nat)
    requires Bounded(rest, setup, c)
    ensures CountAny(SynonymTrees(text, synonyms), PartTrees(rest, setup, c.options), c, n, k)
         <= SynonymsCount(text, synonyms, rest, setup, c, n, k)
  {
    if synonyms != [] {
      var front, last := synonyms[..|synonyms| - 1], synonyms[|synonyms| - 1];
      var after := PartTrees(rest, setup, c.options);
      SynonymTreesCount(text, front, rest, setup, c, n, k);
      if last == text {
        assert SynonymTrees(text, synonyms) == SynonymTrees(text, front);
      } else {
        var tree := WordsTree(SplitWords(last));
        CountAnyAppend(SynonymTrees(text, front), [tree], after, c, n, k);
        CountAnyOne(tree, after, c, n, k);
        WordsTreeCount(SplitWords(last), after, c, n, k);
        BoundedAt(rest, setup, c, n + |SplitWords(last)|, k);
      }
    }
  }

  lemma DictTreeCount(t: string, rest: Parts, setup: Config, c: Counting, n: nat, k: nat)
    requires Bounded(rest, setup, c)
    ensures Count(PartTrees(Then(DictSet(t), rest), setup, c.options), c, n, k) <= PartsCount(Then(DictSet(t), rest), setup, c, n, k)
  {
    var text := setup.fold(t);
    var synonyms, after := Synonyms(text, setup.dictionary), PartTrees(rest, setup, c.options);
    BoundedAt(rest, setup, c, n + 1, k);
    SynonymTreesCount(text, synonyms, rest, setup, c, n, k);
    if synonyms != [] {
      CountAnyAppend([S.Word(text)], SynonymTrees(text, synonyms), after, c, n, k);
      CountAnyOne(S.Word(text), after, c, n, k);
    }
  }

  // ---------------------------------------------------------------- order sets

  lemma {:induction false} EpsilonIsZero(u: S.Unit)
    requires IsEpsilon(u)
    ensures Zero(u)
    decreases u, 1
  {
    match u
    case Concat(cs) => EpsilonsAreZero(cs);
    case Alternation(cs) => AnyEpsilonIsZero(cs);
    case _ =>
  }

  lemma {:induction false} EpsilonsAreZero(cs: seq<S.Unit>)
    requires S.RangeOfAll(cs).Range? && S.RangeOfAll(cs).max == 0
    ensures S.RangeOfAll(cs).min == 0
    decreases cs, 0
  {
    if cs != [] {
      EpsilonIsZero(cs[0]);
      EpsilonsAreZero(cs[1..]);
    }
  }

  lemma {:induction false} AnyEpsilonIsZero(cs: seq<S.Unit>)
    requires S.RangeOfAny(cs).Range? && S.RangeOfAny(cs).max == 0
    ensures S.RangeOfAny(cs).min == 0
    decreases cs, 0
  {
    if S.RangeOf(cs[0]).Range? { EpsilonIsZero(cs[0]); }
    if S.RangeOfAny(cs[1..]).Range? { AnyEpsilonIsZero(cs[1..]); }
  }

  lemma {:induction false} NontrivialBelow(us: seq<S.Unit>, rest: Units, c: Counting)
    ensures Below(Joined(Nontrivial(us), rest), Joined(us, rest), c)
  {
    if us != [] {
      var front, last := us[..|us| - 1], us[|us| - 1];
      assert us == front + [last];
      JoinedSnoc(front, last, rest);
      NontrivialSnoc(us);
      if IsEpsilon(last) {
        EpsilonIsZero(last);
        NontrivialBelow(front, rest, c);
        Dropped(last, rest, rest, c);
        JoinedBelow(front, rest, Cons(last, rest), c);
        BelowThrough(Joined(Nontrivial(front), rest), Joined(front, rest), Joined(us, rest), c);
      } else {
        NontrivialBelow(front, Cons(last, rest), c);
        JoinedSnoc(Nontrivial(front), last, rest);
      }
    }
  }

  lemma {:induction false} NontrivialFewer(us: seq<S.Unit>)
    ensures |Nontrivial(us)| <= |us|
  {
    if us != [] {
      NontrivialFewer(us[..|us| - 1]);
    }
  }

  /** Each order of the elements gives no more than the elements in a row. */
  lemma OrderedBelow(elements: seq<S.Unit>, idx: seq<nat>, rest: Units, c: Counting)
    requires IsOrder(idx, |elements|)
    ensures Below(Cons(Ordered(elements, idx), rest), Joined(elements, rest), c)
  {
    var row := Select(elements, idx);
    SelectPermutes(elements, idx);
    PermutedSame(row, elements, rest, c);
    SameIsBelow(Joined(row, rest), Joined(elements, rest), c);
    InlinedConcatBelow(row, rest, c);
    ConcatIsJoined(Inlined(row, S.CONCAT), rest, c);
    BelowThrough(Cons(Ordered(elements, idx), rest), Joined(Inlined(row, S.CONCAT), rest), Joined(row, rest), c);
    BelowThrough(Cons(Ordered(elements, idx), rest), Joined(row, rest), Joined(elements, rest), c);
  }

  lemma {:induction false} OrdersCount(elements: seq<S.Unit>, orders: seq<seq<nat>>, rest: Units, c: Counting, n: nat, k: nat)
    requires forall i :: 0 <= i < |orders| ==> InRange(orders[i], |elements|) && IsOrder(orders[i], |elements|)
    ensures CountAny(OrderedAll(elements, orders), rest, c, n, k) <= Scaled(|orders|, Count(Joined(elements, rest), c, n, k))
  {
    if orders != [] {
      var front, last := orders[..|orders| - 1], orders[|orders| - 1];
      assert forall i :: 0 <= i < |front| ==> front[i] == orders[i];
      OrdersCount(elements, front, rest, c, n, k);
      CountAnyAppend(OrderedAll(elements, front), [Ordered(elements, last)], rest, c, n, k);
      CountAnyOne(Ordered(elements, last), rest, c, n, k);
      OrderedBelow(elements, last, rest, c);
      BelowAt(Cons(Ordered(elements, last), rest), Joined(elements, rest), c, n, k);
    }
  }

  lemma {:induction false} ScaledByFewer(m: nat, m': nat, x: nat)
    requires m <= m'
    ensures Scaled(m, x) <= Scaled(m', x)
  {
    if m < m' {
      ScaledByFewer(m, m' - 1, x);
    }
  }

  lemma {:induction false} FactRises(m: nat, n: nat)
    requires m <= n
    ensures 1 <= Fact(m) <= Fact(n)
  {
    if n > 0 {
      if m < n { FactRises(m, n - 1); } else { FactRises(m - 1, n - 1); }
      MulMonotone(Fact(n - 1), 1, n);
    }
  }

  lemma FactorialOrders(n: nat)
    ensures |Orders(n)| == Fact(n) && forall i :: 0 <= i < |Orders(n)| ==> InRange(Orders(n)[i], n) && IsOrder(Orders(n)[i], n)
  {
    var orders := Orders(n);
    ArrangedCount(Indexes(n));
    OrdersAreOrders(n);
    forall i | 0 <= i < |orders|
      ensures InRange(orders[i], n) && IsOrder(orders[i], n)
    {
      assert orders[i] in orders;
    }
  }

  lemma AnyOrderCount(elements: seq<S.Unit>, rest: Units, c: Counting, n: nat, k: nat)
    ensures Count(Cons(AnyOrderTree(elements), rest), c, n, k) <= Scaled(Fact(|elements|), Count(Joined(elements, rest), c, n, k))
  {
    if |elements| == 1 {
      assert elements[1..] == [];
    } else if |elements| > 1 {
      FactorialOrders(|elements|);
      OrdersCount(elements, Orders(|elements|), rest, c, n, k);
    }
  }

  lemma OrderTreeCount(us: seq<S.Unit>, rest: Units, c: Counting, n: nat, k: nat)
    ensures Count(Cons(OrderTree(us, c.options.maxLength), rest), c, n, k) <= Scaled(Fact(|us|), Count(Joined(us, rest), c, n, k))
  {
    var elements := Nontrivial(us);
    var x, y := Count(Joined(elements, rest), c, n, k), Count(Joined(us, rest), c, n, k);
    NontrivialFewer(us);
    AnyOrderCount(elements, rest, c, n, k);
    FactRises(|elements|, |us|);
    ScaledByFewer(Fact(|elements|), Fact(|us|), x);
    NontrivialBelow(us, rest, c);
    BelowAt(Joined(elements, rest), Joined(us, rest), c, n, k);
    ScaledMonotone(Fact(|us|), x, y);
  }

  // ---------------------------------------------------------------- all kinds

  /** The trees of the parts give no more than is counted on the parts. */
  ghost predicate Bounded(parts: Parts, setup: Config, c: Counting)
  {
    forall n: nat, k: nat :: Count(PartTrees(parts, setup, c.options), c, n, k) <= PartsCount(parts, setup, c, n, k)
  }

  lemma BoundedAt(parts: Parts, setup: Config, c: Counting, n: nat, k: nat)
    requires Bounded(parts, setup, c)
    ensures Count(PartTrees(parts, setup, c.options), c, n, k) <= PartsCount(parts, setup, c, n, k)
  {
  }

  lemma LeafBounded(q: Query, rest: Parts, setup: Config, c: Counting, n: nat, k: nat)
    requires q.Word? || q.QMark? || q.Star? || q.Plus? || q.Regex?
    requires Bounded(rest, setup, c)
    ensures Count(PartTrees(Then(q, rest), setup, c.options), c, n, k) <= PartsCount(Then(q, rest), setup, c, n, k)
  {
    var after := PartTrees(rest, setup, c.options);
    BoundedAt(rest, setup, c, n + 1, k);
    if q.Star? {
      BoundedAt(rest, setup, c, n, k + 1);
    } else if q.Plus? {
      BoundedAt(rest, setup, c, n + 1, k + 1);
      PlusCount(after, c, n, k);
    } else if q.Regex? && setup.allowRegex {
      ScaledMonotone(|c.words(setup.fold(q.text))|, Count(after, c, n + 1, k), PartsCount(rest, setup, c, n + 1, k));
    }
  }

  lemma PlusCount(rest: Units, c: Counting, n: nat, k: nat)
    ensures Count(Cons(S.Concat([S.QMark, S.Star]), rest), c, n, k) == Count(rest, c, n + 1, k + 1)
  {
    var row: seq<S.Unit> := [S.QMark, S.Star];
    assert row == ([] + [S.QMark]) + [S.Star];
    JoinedSnoc([] + [S.QMark], S.Star, rest);
    JoinedSnoc([], S.QMark, Cons(S.Star, rest));
    assert Count(Cons(S.Concat(row), rest), c, n, k) == Count(Joined(row, rest), c, n, k);
    assert Count(Cons(S.QMark, Cons(S.Star, rest)), c, n, k) == Count(Cons(S.Star, rest), c, n + 1, k);
    assert Count(Cons(S.Star, rest), c, n + 1, k) == Count(rest, c, n + 1, k + 1);
  }

  lemma ConcatBounded(cs: seq<Query>, rest: Parts, setup: Config, c: Counting, n: nat, k: nat)
    requires Bounded(InFront(cs, rest), setup, c)
    ensures Count(PartTrees(Then(Concat(cs), rest), setup, c.options), c, n, k) <= PartsCount(Then(Concat(cs), rest), setup, c, n, k)
  {
    var trees, after := TreesOf(cs, setup, c.options), PartTrees(rest, setup, c.options);
    InFrontTrees(cs, rest, setup, c.options);
    InlinedConcatBelow(trees, after, c);
    BelowAt(Joined(Inlined(trees, S.CONCAT), after), Joined(trees, after), c, n, k);
    BoundedAt(InFront(cs, rest), setup, c, n, k);
  }

  lemma OrderBounded(cs: seq<Query>, rest: Parts, setup: Config, c: Counting, n: nat, k: nat)
    requires Bounded(InFront(cs, rest), setup, c)
    ensures Count(PartTrees(Then(OrderSet(cs), rest), setup, c.options), c, n, k)
         <= PartsCount(Then(OrderSet(cs), rest), setup, c, n, k)
  {
    var trees, after := TreesOf(cs, setup, c.options), PartTrees(rest, setup, c.options);
    InFrontTrees(cs, rest, setup, c.options);
    OrderTreeCount(trees, after, c, n, k);
    BoundedAt(InFront(cs, rest), setup, c, n, k);
    ScaledMonotone(Fact(|cs|), Count(Joined(trees, after), c, n, k), PartsCount(InFront(cs, rest), setup, c, n, k));
  }

  lemma {:induction false} PartsBounded(parts: Parts, setup: Config, c: Counting)
    ensures Bounded(parts, setup, c)
    decreases PartsSize(parts), 1, 0
  {
    forall n: nat, k: nat
      ensures Count(PartTrees(parts, setup, c.options), c, n, k) <= PartsCount(parts, setup, c, n, k)
    {
      PartsBoundedAt(parts, setup, c, n, k);
    }
  }

  lemma {:induction false} PartsBoundedAt(parts: Parts, setup: Config, c: Counting, n: nat, k: nat)
    ensures Count(PartTrees(parts, setup, c.options), c, n, k) <= PartsCount(parts, setup, c, n, k)
    decreases PartsSize(parts), 0, 0
  {
    match parts
    case Done =>
    case Then(q, rest) =>
      PartsBounded(rest, setup, c);
      match q
      case OptionSet(cs) =>
        AnyBounded(cs, rest, setup, c, n, k);
        OptionCount(cs, rest, setup, c, n, k);
      case OrderSet(cs) =>
        InFrontSize(cs, rest);
        PartsBounded(InFront(cs, rest), setup, c);
        OrderBounded(cs, rest, setup, c, n, k);
      case Alternation(cs) =>
        AnyBounded(cs, rest, setup, c, n, k);
        InlinedAlternationCount(TreesOf(cs, setup, c.options), PartTrees(rest, setup, c.options), c, n, k);
      case Concat(cs) =>
        InFrontSize(cs, rest);
        PartsBounded(InFront(cs, rest), setup, c);
        ConcatBounded(cs, rest, setup, c, n, k);
      case DictSet(t) => DictTreeCount(t, rest, setup, c, n, k);
      case _ => LeafBounded(q, rest, setup, c, n, k);
  }

  lemma OptionCount(cs: seq<Query>, rest: Parts, setup: Config, c: Counting, n: nat, k: nat)
    requires CountAny(TreesOf(cs, setup, c.options), PartTrees(rest, setup, c.options), c, n, k)
          <= AlternativesCount(cs, rest, setup, c, n, k)
    requires Bounded(rest, setup, c)
    ensures Count(PartTrees(Then(OptionSet(cs), rest), setup, c.options), c, n, k)
         <= PartsCount(Then(OptionSet(cs), rest), setup, c, n, k)
  {
    OptionUnitCount(|cs| <= 1, TreesOf(cs, setup, c.options), PartTrees(rest, setup, c.options), c, n, k);
    BoundedAt(rest, setup, c, n, k);
  }

  lemma OptionUnitCount(optional: bool, trees: seq<S.Unit>, rest: Units, c: Counting, n: nat, k: nat)
    ensures Count(Cons(S.Alternation((if optional then [S.Concat([])] else []) + Inlined(trees, S.ALTERNATION)), rest), c, n, k)
         == (if optional then Count(rest, c, n, k) else 0) + CountAny(trees, rest, c, n, k)
  {
    CountAnyAppend(if optional then [S.Concat([])] else [], Inlined(trees, S.ALTERNATION), rest, c, n, k);
    InlinedAlternationCount(trees, rest, c, n, k);
    CountAnyOne(S.Concat([]), rest, c, n, k);
  }

  lemma {:induction false} AnyBounded(cs: seq<Query>, rest: Parts, setup: Config, c: Counting, n: nat, k: nat)
    ensures CountAny(TreesOf(cs, setup, c.options), PartTrees(rest, setup, c.options), c, n, k)
         <= AlternativesCount(cs, rest, setup, c, n, k)
    decreases QuerySizes(cs) + PartsSize(rest), 1, |cs|
  {
    if cs != [] {
      PartsBoundedAt(Then(cs[0], rest), setup, c, n, k);
      AnyBounded(cs[1..], rest, setup, c, n, k);
      assert TreesOf(cs, setup, c.options)[1..] == TreesOf(cs[1..], setup, c.options);
    }
  }

  /** A tree gives no more norm queries than its query. */
  lemma TreeBounded(query: Query, setup: Config, words: RegexWords, options: Options)
    ensures TreeCount(TreeOf(query, setup, options), words, options) <= QueryCount(query, setup, words, options)
  {
    var c := Counting(words, options, false);
    PartsBounded(Then(query, Done), setup, c);
    BoundedAt(Then(query, Done), setup, c, 0, 0);
    assert PartTrees(Then(query, Done), setup, options) == Cons(TreeOf(query, setup, options), PartTrees(Done, setup, options));
  }

  /** What is counted on a query: its regexes stand for the words that replace them, or for nothing. */
  function MostNormQueries(query: Query, setup: Config, index: MatchQuery, options: Options): nat
  {
    QueryCount(query, Effective(setup, options), WordsOf(query, setup, index, options), options)
  }

  lemma ExpandedBounded(query: Query, setup: Config, index: MatchQuery, options: Options)
    ensures EmittedTotal(Expanded(query, setup, index, options), options) <= MostNormQueries(query, setup, index, options)
  {
    var tree, words := TreeOf(query, Effective(setup, options), options), WordsOf(query, setup, index, options);
    OptimizerNeverEnlarges(tree, words, options);
    EmittedByTree(OptimizedTree(tree), words, options);
    TreeBounded(query, Effective(setup, options), words, options);
  }

  /** A call of `normalize` adds no more norm queries than are counted on the query, and where these fit into the budget it
      is not refused for being too many. */
  lemma NormalizedBounded(r: Result<seq<NormQuery>>, query: Query, setup: Config, index: MatchQuery, options: Options,
                          normQueries: seq<NormQuery>)
    requires Normalized(r, query, setup, index, options, normQueries)
    ensures r.Ok? ==> |r.value| <= |normQueries| + MostNormQueries(query, setup, index, options)
    ensures |normQueries| + MostNormQueries(query, setup, index, options) <= options.maxNormQueries ==>
              r != InvalidQuery(TooManyNormQueries)
  {
    ExpandedBounded(query, setup, index, options);
  }
}
