/** The tree that `to_simple` (src/netspeak/QueryNormalizer.cpp) makes of a query, where it does not reject it. */
module SimplifiedTrees {
  import opened MachineInts
  import opened Arrangements
  import opened Permutations
  import opened ChainCutters
  import opened Sequences
  import opened LengthRanges
  import opened Queries
  import opened NormQueries
  import opened QueryOptimizer
  import opened SimplifiedRanges
  import S = SimpleQueries

  // ---------------------------------------------------------------- dictionary sets

  function WordsTree(words: seq<string>): S.Unit
    requires |words| > 0
  {
    if |words| == 1 then S.Word(words[0]) else S.Concat(S.WordUnits(words))
  }

  function SynonymTrees(text: string, synonyms: seq<string>): seq<S.Unit>
  {
    if synonyms == [] then []
    else
      var last := synonyms[|synonyms| - 1];
      SynonymTrees(text, synonyms[..|synonyms| - 1]) + if last == text then [] else [WordsTree(SplitWords(last))]
  }

  lemma SynonymTreesNext(text: string, synonyms: seq<string>, n: nat)
    requires n < |synonyms|
    ensures SynonymTrees(text, synonyms[..n + 1])
         == SynonymTrees(text, synonyms[..n])
            + if synonyms[n] == text then [] else [WordsTree(SplitWords(synonyms[n]))]
  {
    TakeNext(synonyms, n);
    InitOfSnoc(synonyms[..n], synonyms[n]);
  }

  function DictTree(text: string, synonyms: seq<string>): S.Unit
  {
    if synonyms == [] then S.Word(text) else S.Alternation([S.Word(text)] + SynonymTrees(text, synonyms))
  }

  // ---------------------------------------------------------------- order sets

  /** The concatenation made for one order of the elements. */
  function Ordered(elements: seq<S.Unit>, idx: seq<nat>): S.Unit
    requires InRange(idx, |elements|)
  {
    S.Concat(Inlined(Select(elements, idx), S.CONCAT))
  }

  function OrderedAll(elements: seq<S.Unit>, orders: seq<seq<nat>>): (r: seq<S.Unit>)
    requires forall i :: 0 <= i < |orders| ==> InRange(orders[i], |elements|)
    ensures |r| == |orders| && forall i :: 0 <= i < |r| ==> r[i] == Ordered(elements, orders[i])
  {
    if orders == [] then []
    else
      var front := orders[..|orders| - 1];
      assert forall i :: 0 <= i < |front| ==> front[i] == orders[i];
      OrderedAll(elements, front) + [Ordered(elements, orders[|orders| - 1])]
  }

  /** All orders of n things, from 0, 1, ..., n - 1 on. */
  function Orders(n: nat): (orders: seq<seq<nat>>)
    ensures forall i :: 0 <= i < |orders| ==> InRange(orders[i], n)
  {
    OrdersInRange(n);
    Arranged(Indexes(n))
  }

  lemma OrdersInRange(n: nat)
    ensures forall i :: 0 <= i < |Arranged(Indexes(n))| ==> InRange(Arranged(Indexes(n))[i], n)
  {
    var orders := Arranged(Indexes(n));
    OrdersAreOrders(n);
    forall i | 0 <= i < |orders|
      ensures InRange(orders[i], n)
    {
      assert orders[i] in orders;
    }
  }

  lemma OrdersAreOrders(n: nat)
    ensures forall t :: t in Arranged(Indexes(n)) <==> IsOrder(t, n)
  {
    forall t
      ensures t in Arranged(Indexes(n)) <==> IsOrder(t, n)
    {
      ArrangedHas(Indexes(n), t);
      if t in Arranged(Indexes(n)) { PermutationIsOrder(t, n); }
    }
  }

  lemma PermutationIsOrder(idx: seq<nat>, n: nat)
    requires Permutes(idx, Indexes(n))
    ensures IsOrder(idx, n)
  {
    forall i | 0 <= i < |idx|
      ensures idx[i] < n
    {
      assert idx[i] in multiset(idx);
      assert idx[i] in multiset(Indexes(n));
    }
  }

  /** The elements in any order. */
  function AnyOrderTree(elements: seq<S.Unit>): S.Unit
  {
    if |elements| == 0 then S.Concat([])
    else if |elements| == 1 then elements[0]
    else S.Alternation(OrderedAll(elements, Orders(|elements|)))
  }

  /** An order set accepts nothing if one of its elements does, or if together they exceed the maximum length. */
  function OrderTree(us: seq<S.Unit>, limit: nat): S.Unit
  {
    if !AllRanges(UnitRanges(us)) || Sum(Mins(UnitRanges(us))) > limit then S.Alternation([])
    else AnyOrderTree(Nontrivial(us))
  }

  // ---------------------------------------------------------------- all kinds

  function TreeOf(q: Query, config: Config, options: Options): S.Unit
    decreases q, 1
  {
    match q
    case Word(t) => S.Word(config.fold(t))
    case QMark => S.QMark
    case Star => S.Star
    case Plus => S.Concat([S.QMark, S.Star])
    case Regex(t) => if config.allowRegex then S.Regex(config.fold(t)) else S.Alternation([])
    case DictSet(t) => DictTree(config.fold(t), Synonyms(config.fold(t), config.dictionary))
    case OptionSet(cs) =>
      S.Alternation((if |cs| <= 1 then [S.Concat([])] else []) + Inlined(TreesOf(cs, config, options), S.ALTERNATION))
    case OrderSet(cs) => OrderTree(TreesOf(cs, config, options), options.maxLength)
    case Alternation(cs) => S.Alternation(Inlined(TreesOf(cs, config, options), S.ALTERNATION))
    case Concat(cs) => S.Concat(Inlined(TreesOf(cs, config, options), S.CONCAT))
  }

  function TreesOf(cs: seq<Query>, config: Config, options: Options): (us: seq<S.Unit>)
    ensures |us| == |cs|
    decreases cs, 0
  {
    if cs == [] then [] else [TreeOf(cs[0], config, options)] + TreesOf(cs[1..], config, options)
  }

  lemma {:induction false} TreesAt(cs: seq<Query>, config: Config, options: Options, i: nat)
    requires i < |cs|
    ensures TreesOf(cs, config, options)[i] == TreeOf(cs[i], config, options)
  {
    if i > 0 {
      TreesAt(cs[1..], config, options, i - 1);
    }
  }

  /** The trees of the first children. */
  ghost predicate FirstTrees(us: seq<S.Unit>, cs: seq<Query>, config: Config, options: Options)
  {
    |us| <= |cs| && us == TreesOf(cs, config, options)[..|us|]
  }

  lemma NextTree(us: seq<S.Unit>, cs: seq<Query>, config: Config, options: Options)
    requires FirstTrees(us, cs, config, options) && |us| < |cs|
    ensures FirstTrees(us + [TreeOf(cs[|us|], config, options)], cs, config, options)
  {
    TreesAt(cs, config, options, |us|);
    TakeNext(TreesOf(cs, config, options), |us|);
  }

  lemma LastTree(us: seq<S.Unit>, cs: seq<Query>, config: Config, options: Options)
    requires FirstTrees(us, cs, config, options) && |us| == |cs|
    ensures us == TreesOf(cs, config, options)
  {
  }

  lemma DeadOrderTree(cs: seq<Query>, i: nat, config: Config, options: Options)
    requires i < |cs| && S.RangeOf(TreeOf(cs[i], config, options)).NoLength?
    ensures TreeOf(OrderSet(cs), config, options) == S.Alternation([])
  {
    TreesAt(cs, config, options, i);
    assert UnitRanges(TreesOf(cs, config, options))[i].NoLength?;
  }
}
