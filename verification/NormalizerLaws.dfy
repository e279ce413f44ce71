/** What QueryNormalizer::normalize (src/netspeak/QueryNormalizer.cpp) makes of particular queries, from end to end. */
module NormalizerLaws {
  import opened MachineInts
  import opened Languages
  import opened NormQueries
  import opened NormQueryCounters
  import opened RegexReplacement
  import opened SimplifiedRanges
  import opened QueryNormalizers
  import Q = Queries
  import S = SimpleQueries

  // ---------------------------------------------------------------- a regex alone

  lemma LoneTree(t: string, setup: Q.Config, options: Options)
    requires setup.allowRegex && options.maxRegexMatches > 0
    ensures OptimizedOf(Q.Regex(t), setup, options) == S.Regex(setup.fold(t))
    ensures VerdictOf(Q.Regex(t), Effective(setup, options), options).Accepted?
    ensures options.minLength <= 1 <= options.maxLength ==> !NoPermittedLength(Q.Regex(t), options)
  {
  }

  /** The best number of words for a lone regex: what is permitted and what the budget allows. */
  lemma LoneChoice(tree: S.Unit, options: Options, best: uint64)
    requires tree.Regex? && BestChoice(tree, options, best) && 0 < best <= options.maxRegexMatches
    ensures best == Min(options.maxRegexMatches, options.maxNormQueries)
  {
    assert IdealFor(tree, best, options) == best;
    if best < options.maxRegexMatches {
      var next: uint64 := best + 1;
      assert IdealFor(tree, next, options) == next;
    }
  }

  /** The final tree is the alternation of the words, all of which are as long as the minimum length demands. */
  lemma LoneFinalTree(t: string, setup: Q.Config, index: MatchQuery, options: Options, best: uint64)
    requires setup.allowRegex && options.maxRegexMatches > 0 && best == ChosenMatches(S.Regex(setup.fold(t)), options)
    ensures S.MinLen(FinalTree(Q.Regex(t), setup, index, options)) >= 1
    ensures WordsOf(Q.Regex(t), setup, index, options)(setup.fold(t)) == index(setup.fold(t), best % TWO_32)
  {
    LoneTree(t, setup, options);
    WordUnitsLengths(index(setup.fold(t), best % TWO_32));
  }

  lemma LoneMeaning(t: string, setup: Q.Config, index: MatchQuery, options: Options, best: uint64, p: S.Phrase)
    requires setup.allowRegex && options.maxRegexMatches > 0 && best == ChosenMatches(S.Regex(setup.fold(t)), options)
    ensures Has(Meant(Q.Regex(t), setup, index, options), p)
       <==> |p| == 1 && p[0] in index(setup.fold(t), best % TWO_32)
  {
    LoneFinalTree(t, setup, index, options, best);
  }

  /** A regex by itself is not refused. */
  lemma LoneAccepted(r: Result<seq<NormQuery>>, t: string, setup: Q.Config, index: MatchQuery, options: Options)
    requires Normalized(r, Q.Regex(t), setup, index, options, [])
    requires setup.allowRegex && options.maxRegexMatches > 0 && options.maxNormQueries > 0 && RespectsMaximum(index)
    requires options.minLength <= 1 <= options.maxLength
    ensures r.Ok? && ChosenMatches(S.Regex(setup.fold(t)), options) == Min(options.maxRegexMatches, options.maxNormQueries)
  {
    var tree := S.Regex(setup.fold(t));
    var best := ChosenMatches(tree, options);
    LoneTree(t, setup, options);
    assert IdealFor(tree, options.maxRegexMatches, options) == options.maxRegexMatches && IdealFor(tree, 1, options) == 1;
    assert IdealFor(tree, best, options) == best;
    assert r == InvalidQuery(OrderSetTooLarge) <==> RefusedFor(OrderSetTooLarge, Q.Regex(t), setup, index, options, 0);
    assert Budgeted(r, tree, index, options, 0);
    LoneChoice(tree, options, best);
  }

  /** A regex by itself finds exactly the words that the index gives for it, as many as are permitted and as the budget
      allows. The index takes their number as a 32-bit number. */
  lemma LoneRegex(r: Result<seq<NormQuery>>, t: string, setup: Q.Config, index: MatchQuery, options: Options)
    requires Normalized(r, Q.Regex(t), setup, index, options, [])
    requires setup.allowRegex && options.maxRegexMatches > 0 && options.maxNormQueries > 0 && RespectsMaximum(index)
    requires options.minLength <= 1 <= options.maxLength
    ensures var k := Min(options.maxRegexMatches, options.maxNormQueries) % TWO_32;
            r.Ok? && forall p :: MatchesSome(r.value, p) <==> |p| == 1 && p[0] in index(setup.fold(t), k)
  {
    var query := Q.Regex(t);
    var best := ChosenMatches(S.Regex(setup.fold(t)), options);
    LoneAccepted(r, t, setup, index, options);
    LoneTree(t, setup, options);
    LoneFinalTree(t, setup, index, options, best);
    assert r.value[0..] == r.value;
    forall p
      ensures MatchesSome(r.value, p) <==> |p| == 1 && p[0] in index(setup.fold(t), best % TWO_32)
    {
      LoneMeaning(t, setup, index, options, best, p);
    }
  }

  lemma NothingAsked(index: MatchQuery, t: string)
    requires RespectsMaximum(index)
    ensures index(t, 0) == []
  {
    assert |index(t, 0)| <= 0;
  }

  /** If 2^32 words are permitted, or a multiple of it, the index is asked for none. */
  lemma TooManyWordsFindNothing(r: Result<seq<NormQuery>>, t: string, setup: Q.Config, index: MatchQuery, options: Options)
    requires Normalized(r, Q.Regex(t), setup, index, options, [])
    requires setup.allowRegex && options.maxRegexMatches > 0 && options.maxNormQueries > 0 && RespectsMaximum(index)
    requires options.minLength <= 1 <= options.maxLength
    requires Min(options.maxRegexMatches, options.maxNormQueries) % TWO_32 == 0
    ensures r.Ok? && forall p :: !MatchesSome(r.value, p)
  {
    LoneRegex(r, t, setup, index, options);
    NothingAsked(index, setup.fold(t));
  }
}
