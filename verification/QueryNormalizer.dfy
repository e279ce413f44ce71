/** QueryNormalizer::normalize (src/netspeak/QueryNormalizer.cpp): from a query to norm queries. */
module QueryNormalizers {
  import opened MachineInts
  import opened Languages
  import opened LengthRanges
  import opened Traces
  import opened StarQueries
  import opened NormQueries
  import opened MinimumLengths
  import opened NormQueryCounters
  import opened RegexReplacement
  import opened QuerySimplifiers
  import opened SimplifiedRanges
  import opened SimplifiedTrees
  import Q = Queries
  import S = SimpleQueries
  import O = QueryOptimizer

  /** Regexes are allowed if there is an index, time to search it, and room for at least one word. */
  function Effective(setup: Q.Config, options: Options): Q.Config
  {
    setup.(allowRegex := setup.allowRegex && options.maxRegexMatches > 0)
  }

  /** The optimised tree of a query, whose regexes are still in it. */
  function OptimizedOf(query: Q.Query, setup: Q.Config, options: Options): S.Unit
  {
    O.OptimizedTree(TreeOf(query, Effective(setup, options), options))
  }

  /** The words that replace the regexes of a query. */
  function WordsOf(query: Q.Query, setup: Q.Config, index: MatchQuery, options: Options): RegexWords
  {
    WordsFor(index, WordsPerRegex(OptimizedOf(query, setup, options), options))
  }

  function FinalTree(query: Q.Query, setup: Q.Config, index: MatchQuery, options: Options): (tree: S.Unit)
    ensures S.RegexFree(tree)
  {
    Replaced(OptimizedOf(query, setup, options), WordsOf(query, setup, index, options))
  }

  /** The star queries of a query. */
  function Expanded(query: Q.Query, setup: Q.Config, index: MatchQuery, options: Options): seq<StarQuery>
  {
    StarQueriesOf(FinalTree(query, setup, index, options), options.maxLength)
  }

  /** The phrases of a query when each regex stands for the words that replace it, or for nothing if there is no index or
      no word may replace it. */
  ghost function Meant(query: Q.Query, setup: Q.Config, index: MatchQuery, options: Options): Language<S.Word>
  {
    Q.QueryLang(query, setup,
                if setup.allowRegex && options.maxRegexMatches > 0 then Meaning(WordsOf(query, setup, index, options)) else NoRegexes())
  }

  /** Not allowing regexes is the same as finding nothing for them. */
  lemma {:induction false} DisallowedFindNothing(q: Q.Query, setup: Q.Config, config: Q.Config, R: S.RegexMeaning)
    requires config == setup.(allowRegex := false)
    ensures Q.QueryLang(q, config, R) == Q.QueryLang(q, setup, NoRegexes())
    decreases q, 1
  {
    match q
    case OptionSet(cs) => AllDisallowedFindNothing(cs, setup, config, R);
    case OrderSet(cs) => AllDisallowedFindNothing(cs, setup, config, R);
    case Alternation(cs) => AllDisallowedFindNothing(cs, setup, config, R);
    case Concat(cs) => AllDisallowedFindNothing(cs, setup, config, R);
    case Regex(t) => Extensional(S.RegexPhrases(NoRegexes()(config.fold(t))), Nothing());
    case _ =>
  }

  lemma {:induction false} AllDisallowedFindNothing(cs: seq<Q.Query>, setup: Q.Config, config: Q.Config, R: S.RegexMeaning)
    requires config == setup.(allowRegex := false)
    ensures Q.QueryLangs(cs, config, R) == Q.QueryLangs(cs, setup, NoRegexes())
    decreases cs, 0
  {
    if cs != [] {
      DisallowedFindNothing(cs[0], setup, config, R);
      AllDisallowedFindNothing(cs[1..], setup, config, R);
    }
  }

  lemma EffectiveMeaning(query: Q.Query, setup: Q.Config, index: MatchQuery, options: Options)
    ensures Q.QueryLang(query, Effective(setup, options), Meaning(WordsOf(query, setup, index, options)))
         == Meant(query, setup, index, options)
  {
    if !(setup.allowRegex && options.maxRegexMatches > 0) {
      DisallowedFindNothing(query, setup, Effective(setup, options), Meaning(WordsOf(query, setup, index, options)));
    }
  }

  /** Every emitted norm query stays within the accepted phrases and the length limits. */
  ghost predicate Sound(added: seq<NormQuery>, accepted: Language<S.Word>, options: Options)
  {
    forall p :: MatchesSome(added, p) ==> options.minLength <= |p| <= options.maxLength && Has(accepted, p)
  }

  /** Every accepted phrase of a permitted length is matched. */
  ghost predicate Complete(added: seq<NormQuery>, accepted: Language<S.Word>, options: Options)
  {
    forall p :: options.minLength <= |p| <= options.maxLength && Has(accepted, p) ==> MatchesSome(added, p)
  }

  /** The guard of the early return. */
  predicate NoPermittedLength(query: Q.Query, options: Options)
  {
    var range := Q.QueryRange(query);
    range.NoLength? || range.max < options.minLength || range.min > options.maxLength
  }

  /** The early exit: no phrase of the query has a permitted length. */
  lemma NothingToFind(query: Q.Query, setup: Q.Config, index: MatchQuery, options: Options)
    requires Q.QueryWeight(query, Effective(setup, options)) < UINT32_MAX && NoPermittedLength(query, options)
    ensures Sound([], Meant(query, setup, index, options), options) && Complete([], Meant(query, setup, index, options), options)
  {
    EffectiveMeaning(query, setup, index, options);
    Q.QueryCovers(query, Effective(setup, options), Meaning(WordsOf(query, setup, index, options)));
  }

  // ---------------------------------------------------------------- the final tree means the query

  ghost predicate Represents(tree: S.Unit, A: Language<S.Word>, limit: nat)
  {
    S.RegexFree(tree) && Upto(S.Lang(tree, NoRegexes()), limit) == Upto(A, limit)
  }

  lemma TreeRepresents(simple: S.Unit, optimized: S.Unit, query: Q.Query, config: Q.Config, words: RegexWords, limit: nat)
    requires Simplifies(simple, query, config, limit) && S.Equivalent(optimized, simple)
    ensures Represents(Replaced(optimized, words), Q.QueryLang(query, config, Meaning(words)), limit)
  {
    ReplacedLang(optimized, words, NoRegexes());
    assert S.Lang(optimized, Meaning(words)) == S.Lang(simple, Meaning(words));
  }

  lemma EmissionFits(added: seq<NormQuery>, tree: S.Unit, accepted: Language<S.Word>, options: Options)
    requires Represents(tree, accepted, options.maxLength) && S.Weight(tree) < UINT32_MAX
    requires Emission(added, StarQueriesOf(tree, options.maxLength), options)
    ensures Sound(added, accepted, options)
    ensures Complete(added, accepted, options) <==> FindsAll(added, tree, options)
  {
    var L := options.maxLength;
    forall p | MatchesSome(added, p)
      ensures options.minLength <= |p| <= L && Has(accepted, p)
    {
      EmissionSound(added, tree, options, p);
      UptoHas(S.Lang(tree, NoRegexes()), accepted, L, p);
    }
    forall p: S.Phrase | |p| <= L
      ensures Has(S.Lang(tree, NoRegexes()), p) <==> Has(accepted, p)
    {
      UptoHas(S.Lang(tree, NoRegexes()), accepted, L, p);
    }
  }

  /** A guard that a caller can read off the tree. */
  lemma NothingDroppedIf(tree: S.Unit, options: Options)
    requires S.RegexFree(tree) && S.Weight(tree) < UINT32_MAX && options.minLength <= S.MinLen(tree)
    ensures NothingDropped(StarQueriesOf(tree, options.maxLength), options)
  {
    StarQueriesBetween(tree, options.maxLength);
  }

  /** What the norm queries emitted for a tree find: accepted phrases only; all of them exactly when the minimum length
      drops no star query that is needed, for instance because every path of the tree is long enough; and in any case
      those on whose path of the tree enough words are fixed. */
  ghost predicate Answers(added: seq<NormQuery>, tree: S.Unit, accepted: Language<S.Word>, options: Options)
    requires S.RegexFree(tree)
  {
    && Sound(added, accepted, options)
    && (Complete(added, accepted, options) <==> NothingDropped(StarQueriesOf(tree, options.maxLength), options))
    && (options.minLength <= S.MinLen(tree) ==> Complete(added, accepted, options))
    && forall p :: MatchesSome(added, p) <==> AcceptedLongEnough(tree, options, p)
  }

  lemma EmissionAnswers(added: seq<NormQuery>, tree: S.Unit, accepted: Language<S.Word>, options: Options)
    requires Represents(tree, accepted, options.maxLength) && S.Weight(tree) < UINT32_MAX
    requires Emission(added, StarQueriesOf(tree, options.maxLength), options)
    ensures Answers(added, tree, accepted, options)
  {
    forall p
      ensures MatchesSome(added, p) <==> AcceptedLongEnough(tree, options, p)
    {
      EmissionMeaning(added, tree, options, p);
    }
    EmissionFits(added, tree, accepted, options);
    FindsAllIff(added, tree, options);
    if options.minLength <= S.MinLen(tree) { NothingDroppedIf(tree, options); }
  }

  lemma FinalRepresents(simple: S.Unit, query: Q.Query, setup: Q.Config, index: MatchQuery, options: Options)
    requires Simplifies(simple, query, Effective(setup, options), options.maxLength)
    requires S.Equivalent(OptimizedOf(query, setup, options), simple) && S.Weight(OptimizedOf(query, setup, options)) < UINT32_MAX
    ensures Represents(FinalTree(query, setup, index, options), Meant(query, setup, index, options), options.maxLength)
    ensures S.Weight(FinalTree(query, setup, index, options)) < UINT32_MAX
  {
    var optimized, words := OptimizedOf(query, setup, options), WordsOf(query, setup, index, options);
    TreeRepresents(simple, optimized, query, Effective(setup, options), words, options.maxLength);
    EffectiveMeaning(query, setup, index, options);
    ReplacedLengths(optimized, words);
  }

  // ---------------------------------------------------------------- why a query is refused

  ghost predicate TreeRefusedFor(reason: InvalidQueryError, optimized: S.Unit, index: MatchQuery, options: Options, before: nat)
  {
    var tooComplex := !S.RegexFree(optimized) && ChosenMatches(optimized, options) == 0;
    var queries := StarQueriesOf(Replaced(optimized, WordsFor(index, WordsPerRegex(optimized, options))), options.maxLength);
    match reason
    case OrderSetTooLarge => false
    case TooComplex => tooComplex
    case TooManyNormQueries => !tooComplex && queries != [] && before + EmittedTotal(queries, options) > options.maxNormQueries
  }

  /** A query is refused because of an order set, or else for what its tree is. */
  ghost predicate RefusedFor(reason: InvalidQueryError, query: Q.Query, setup: Q.Config, index: MatchQuery, options: Options,
                             before: nat)
  {
    && !NoPermittedLength(query, options)
    && if VerdictOf(query, Effective(setup, options), options).Rejected? then reason == OrderSetTooLarge
       else TreeRefusedFor(reason, OptimizedOf(query, setup, options), index, options, before)
  }

  ghost predicate TreeOutcome(r: Result<seq<NormQuery>>, added: seq<NormQuery>, optimized: S.Unit, index: MatchQuery,
                              options: Options, normQueries: seq<NormQuery>)
  {
    var words := WordsFor(index, WordsPerRegex(optimized, options));
    && (r.Ok? ==> r.value == normQueries + added
                  && Emission(added, StarQueriesOf(Replaced(optimized, words), options.maxLength), options))
    && forall reason :: r == InvalidQuery(reason) <==> TreeRefusedFor(reason, optimized, index, options, |normQueries|)
  }

  /** What the budget says about regexes, while the estimates fit into 64 bits: the query is too complex exactly when one
      word per regex is estimated to be too much; otherwise each regex is replaced by as many words as the budget allows,
      which never gives too many norm queries. */
  ghost predicate Budgeted(r: Result<seq<NormQuery>>, tree: S.Unit, index: MatchQuery, options: Options, before: nat)
    requires !S.RegexFree(tree)
  {
    var best, max := ChosenMatches(tree, options), options.maxRegexMatches;
    && (IdealFor(tree, max, options) <= UINT64_MAX ==>
          if IdealFor(tree, 1, options) > options.maxNormQueries then r == InvalidQuery(TooComplex)
          else r != InvalidQuery(TooComplex) && 0 < best <= max && BestChoice(tree, options, best))
    && (IdealFor(tree, best, options) <= UINT64_MAX && RespectsMaximum(index) && before == 0 ==>
          r != InvalidQuery(TooManyNormQueries))
  }

  lemma TreeBudgeted(r: Result<seq<NormQuery>>, added: seq<NormQuery>, tree: S.Unit, index: MatchQuery, options: Options,
                     normQueries: seq<NormQuery>)
    requires S.Weight(tree) < UINT32_MAX && !S.RegexFree(tree) && options.maxRegexMatches > 0
    requires TreeOutcome(r, added, tree, index, options, normQueries)
    ensures Budgeted(r, tree, index, options, |normQueries|)
  {
    var best := ChosenMatches(tree, options);
    ChosenIsWithinBudget(tree, options);
    if IdealFor(tree, options.maxRegexMatches, options) <= UINT64_MAX {
      NothingChosenIff(tree, options);
      ChosenIsBest(tree, options);
    }
    if IdealFor(tree, best, options) <= UINT64_MAX && RespectsMaximum(index) && best > 0 {
      ReplacedStaysInBudget(tree, index, best, options);
    }
  }

  /** The second half of `normalize`: optimise, replace the regexes, expand. */
  method NormalizeTree(simple: S.Unit, index: MatchQuery, options: Options, normQueries: seq<NormQuery>)
    returns (r: Result<seq<NormQuery>>, ghost added: seq<NormQuery>)
    requires S.Weight(simple) < UINT32_MAX
    requires !S.RegexFree(simple) ==> options.maxRegexMatches > 0
    ensures S.Equivalent(O.OptimizedTree(simple), simple) && S.Weight(O.OptimizedTree(simple)) <= S.Weight(simple)
    ensures TreeOutcome(r, added, O.OptimizedTree(simple), index, options, normQueries)
    ensures !S.RegexFree(O.OptimizedTree(simple)) ==> Budgeted(r, O.OptimizedTree(simple), index, options, |normQueries|)
  {
    added := [];
    var optimized := O.Optimize(simple);
    var replaced := NormalizeRegexes(optimized, index, options);
    if replaced.InvalidQuery? {
      r := replaced.To();
    } else {
      ReplacedLengths(optimized, WordsFor(index, WordsPerRegex(optimized, options)));
      r, added := ToNormQueries(normQueries, replaced.value, options);
    }
    if !S.RegexFree(optimized) { TreeBudgeted(r, added, optimized, index, options, normQueries); }
  }

  /** What a call of `normalize` gives. Without a permitted length, nothing. Otherwise the norm queries answer the query,
      with each regex standing for the words that replace it, and the call fails exactly for the reasons above. */
  ghost predicate Normalized(r: Result<seq<NormQuery>>, query: Q.Query, setup: Q.Config, index: MatchQuery, options: Options,
                             normQueries: seq<NormQuery>)
  {
    var accepted, optimized := Meant(query, setup, index, options), OptimizedOf(query, setup, options);
    if NoPermittedLength(query, options) then r == Ok(normQueries) && Complete([], accepted, options)
    else
      && (r.Ok? ==>
            && normQueries <= r.value
            && var added := r.value[|normQueries|..];
               && Answers(added, FinalTree(query, setup, index, options), accepted, options)
               && |added| == EmittedTotal(Expanded(query, setup, index, options), options))
      && (forall reason :: r == InvalidQuery(reason) <==> RefusedFor(reason, query, setup, index, options, |normQueries|))
      && (r != InvalidQuery(OrderSetTooLarge) && !S.RegexFree(optimized) ==>
            Budgeted(r, optimized, index, options, |normQueries|))
  }

  lemma NormalizedEarly(query: Q.Query, setup: Q.Config, index: MatchQuery, options: Options, normQueries: seq<NormQuery>)
    requires Q.QueryWeight(query, Effective(setup, options)) < UINT32_MAX && NoPermittedLength(query, options)
    ensures Normalized(Ok(normQueries), query, setup, index, options, normQueries)
  {
    NothingToFind(query, setup, index, options);
  }

  lemma NormalizedRejected(query: Q.Query, setup: Q.Config, index: MatchQuery, options: Options, normQueries: seq<NormQuery>)
    requires !NoPermittedLength(query, options) && VerdictOf(query, Effective(setup, options), options).Rejected?
    ensures Normalized(InvalidQuery(OrderSetTooLarge), query, setup, index, options, normQueries)
  {
  }

  lemma AppendedPart(normQueries: seq<NormQuery>, added: seq<NormQuery>)
    ensures normQueries <= normQueries + added && (normQueries + added)[|normQueries|..] == added
  {
  }

  lemma NormalizedTree(r: Result<seq<NormQuery>>, added: seq<NormQuery>, simple: S.Unit, query: Q.Query, setup: Q.Config,
                       index: MatchQuery, options: Options, normQueries: seq<NormQuery>)
    requires !NoPermittedLength(query, options) && VerdictOf(query, Effective(setup, options), options).Accepted?
    requires Simplifies(simple, query, Effective(setup, options), options.maxLength)
    requires S.Equivalent(OptimizedOf(query, setup, options), simple) && S.Weight(OptimizedOf(query, setup, options)) < UINT32_MAX
    requires TreeOutcome(r, added, OptimizedOf(query, setup, options), index, options, normQueries)
    requires !S.RegexFree(OptimizedOf(query, setup, options)) ==>
               Budgeted(r, OptimizedOf(query, setup, options), index, options, |normQueries|)
    ensures Normalized(r, query, setup, index, options, normQueries)
  {
    if r.Ok? {
      AppendedPart(normQueries, added);
      FinalRepresents(simple, query, setup, index, options);
      EmissionAnswers(added, FinalTree(query, setup, index, options), Meant(query, setup, index, options), options);
    }
  }

  /** `normalize`. */
  method Normalize(query: Q.Query, setup: Q.Config, index: MatchQuery, options: Options, normQueries: seq<NormQuery>)
    returns (r: Result<seq<NormQuery>>)
    requires Q.QueryWeight(query, Effective(setup, options)) < UINT32_MAX
    ensures Normalized(r, query, setup, index, options, normQueries)
  {
    var config := Effective(setup, options);
    var range := Q.QueryLengthRange(query, config);
    if range.IsEmpty() || range.max < options.minLength || range.min > options.maxLength {
      NormalizedEarly(query, setup, index, options, normQueries);
      return Ok(normQueries);
    }
    var simple := UnitToSimple(query, config, options);
    if simple.InvalidQuery? {
      NormalizedRejected(query, setup, index, options, normQueries);
      return simple.To();
    }
    ghost var added;
    r, added := NormalizeTree(simple.value, index, options, normQueries);
    NormalizedTree(r, added, simple.value, query, setup, index, options, normQueries);
  }
}
