# Verified model of the Netspeak query engine

Netspeak answers queries over n-grams in a small wildcard language. This project models the parts of it
whose logic is hard to see through, and proves what they compute:

1. **The query compiler.** A query tree is simplified, optimised, has its regexes replaced by vocabulary words,
   is expanded into star queries and finally into flat norm queries. Every stage has a language of phrases
   (`Languages`), and the stages are proved to agree up to the maximum phrase length. `QueryNormalizers.Normalize`
   states the result for the whole pipeline, including what a minimum length does to it and why the number of norm
   queries stays within its budget. That number is also counted, on the tree and on the query itself.
2. **Regex queries over one vocabulary.** A builder rewrites a unit list while it grows and must keep its language;
   a parser feeds it; an index answers by a scan or by a hash table with linear probing.
3. **Retrieval.** Sorted postlists are searched from sampled positions and intersected with a falling bound.
4. **Postlist storage.** Paged iterators, slice reads, an external merge sort and hash-partitioned grouping.
5. **The LFU cache**, whose map and heap are linked by pointers to cells that are allocated and freed by hand.
6. **Merging of result slices** under an order that compares frequencies only.
7. **The properties format**, printed and parsed, with a description of every text that is read.

Objects whose methods change their fields are classes, loops are methods with loops, and each method is tied to a
specification function or a language about which the lemmas speak. A `Unit` of the query tree is held by value and
moved in the source, so trees are datatypes here and editing a tree in place is reassigning it. Linked structures of
the cache are values in which a pointer is an address of a modelled memory.

## Findings

Some statements are false of the code. The code is modelled as it is; the exact condition and a failing input are proved.

| statement that fails | when it holds | failing input |
|---|---|---|
| Every accepted phrase of a permitted length is found for every minimum length. `to_norm_queries` drops a star query whose fixed words are fewer than the minimum length even if its stars could be filled. | `MinimumLengths.FindsAllIff`: what the stars of the dropped star queries can be filled with is covered, place by place, by kept ones; so it is if the tree itself is long enough (`LongTreeComplete`) or every star query with a star fixes enough words (`EnoughFixedWords`), and for a single star query `NormQueries.StarQueryCompleteIff` is the whole answer. `QueryNormalizers.Normalize` carries the condition through the pipeline. | `MinimumLengths.MinLengthLosesPhrases`: the query `*` for one to three words gives no norm query |
| The estimate is never below the number of norm queries (comment at `src/netspeak/QueryNormalizer.cpp:574-585`). `safe_mult` misses overflows. | If the exact value fits into 64 bits the estimate is an upper bound (`RegexReplacement.EstimateIsUpperBound`, `NormQueryCounters.EstimateTracks`). For a tree, all estimates are exact up to saturation if and only if no product misses an overflow (`EstimateOverflow.ExactIffNothingMissed`), and a product misses one exactly when the last addition of the larger factor crosses no multiple of 2^64 (`NormQueryCounters.SafeMultDetects`). | `EstimateOverflow.EstimateCanMissOverflow`: three regexes of 2642250 words each; `NormQueryCounters.SafeMultMisses` |
| `binomial` is the binomial coefficient. | `Combinatorics.BinomialExactIff`: its last product has to fit into the type. | `Combinatorics.BinomialWraps`: n = 2^32 + 1 and k = 2 |
| A vocabulary word is found. The look-up steps without the table mask. | The look-up leaves the table exactly when no slot from the home slot to the end is empty or holds the word (`WordTables.FindWord`); for a stored word, exactly when it was stored in a wrapped slot (`WordTables.StoredWordOverrunsIffWrapped`). No look-up leaves it exactly when its last slot is empty (`TableOverruns.NeverOverrunsIff`). | `WordTables.LostWord`: two words of which the second cannot be looked up; with fewer than two words every absent one (`SingleWordVocabulary`, `EmptyVocabulary`) |
| Sampled positions lose no entry. | `Retrieval.SearchLosesNothingIff`: a search loses nothing exactly when the sample it stops at does not have the searched frequency or stands at the start of that frequency's run. Entries below the frequency are never skipped (`Retrieval.BeginSkipsOnlyAbove`). | `Retrieval.TiesAreSkipped` |
| A sampled search starts at the last sample above its frequency (comment at `src/netspeak/RetrievalStrategy3.hpp:353-354`). | `Retrieval.StartsAtLastAboveIff`: where no sample has the frequency, exactly if some sample is below it or that last one stands at the beginning. | `Retrieval.PrunedAway`: all samples are above the frequency, and a pruned read from the beginning misses the entry |
| A star without room counts once in the estimate. The clamp at 0 works on a 32-bit difference that has wrapped. | `StarRooms.EstimateAsIntendedIff`: exactly if no star that counts has more fixed words around it than the maximum length. | `StarRooms.LongPartRefused`: a part that is too long, beside a regex, makes the query too complex, though `LongPartGivesNothing` |
| A regex is replaced by the chosen number of words. The index takes that number as a 32-bit one. | `NormalizerLaws.LoneRegex`: the index is asked for the number modulo 2^32, which is the number exactly up to UINT32_MAX. | `NormalizerLaws.TooManyWordsFindNothing`: 2^32 words permitted |
| The length range of a query has no lengths that it does not accept. | `QueryLengths.RangeIsExact`, if option sets have at most one element, there are no dictionary sets and the regexes find words. A range that is too wide loses nothing (`Queries.QueryCovers`). | `QueryLengths.OptionSetRangeIsWider` |
| Merging slices keeps every reference. | `RefMerge.MergeCoversIff`, for slices that overlap or touch: the two start together, or the later one starts at a new frequency, or the first one starts earlier and reaches to the end of the second or of the frequency at which it starts. | `RefMerge.MergeLosesTies` |
| Erasing a key from the cache removes that key. | `LfuCaches.ErasesKeyIff`: exactly when no other key has priority 0, which takes a 32-bit wrap-around: no other key was found 2^32 - 1 times, modulo 2^32 (`CountedErasesKeyIff`). Otherwise the standard library may leave the other key at the root. | `LfuCaches.WrongKeyErased`: two keys, one of which was found 2^32 - 1 times |

## Model

| member | source | states |
|---|---|---|
| LengthRanges.LengthRange.Append | src/netspeak/model/LengthRange.cpp:8-29 | the in-place range of a concatenation: empty if a part is, both ends added, an unbounded end stays unbounded |
| LengthRanges.LengthRange.Unite | src/netspeak/model/LengthRange.cpp:31-47 | the in-place range of a union |
| SimpleQueries.RangeExact | src/netspeak/model/SimpleQuery.cpp:63-95 | the length range of a tree holds exactly: empty iff no phrase is accepted, every accepted length is inside, both ends are reached (an unbounded end at every length), and the minimum length is its lower end |
| SimpleQueries.LengthRangeOf | src/netspeak/model/SimpleQuery.cpp:63-95 | the computed range is the specified one and no 32-bit sum wraps |
| SimpleQueries.MinLength | src/netspeak/model/SimpleQuery.cpp:97-136 | the loops compute the least length, UINT32_MAX for a tree that accepts nothing |
| Queries.QueryCovers | src/netspeak/model/Query.cpp:44-88 | every phrase of a query has a length inside the query's range, order sets and options included |
| Queries.QueryLengthRange | src/netspeak/model/Query.cpp:44-88 | the computed range of a query is the specified one |
| QueryLengths.RangeIsExact | src/netspeak/model/Query.cpp:44-88 | the range is exact, with both ends attained, for queries without dictionary sets and with option sets of at most one element, where the regexes find words |
| QueryLengths.OptionSetRangeIsWider | src/netspeak/model/Query.cpp:44-88 | an option set of two words: its range admits the empty phrase, which it does not accept |
| QuerySimplifiers.UnitToSimple | src/netspeak/QueryNormalizer.cpp:293-325 | the result is the tree of the query (`SimplifiedTrees.TreeOf`), which has the language of the query up to the maximum length; which queries are rejected, and the length range of the tree, is told exactly by a verdict on lengths only |
| UnitOrders.PermutedSame | src/netspeak/QueryNormalizer.cpp:255-269 | the elements of an order set give as many norm queries in one order as in any other |
| QueryCounts.TreeBounded | src/netspeak/QueryNormalizer.cpp:293-325 | the tree of a query gives no more norm queries than are counted on the query: a choice of an element, a synonym, a word, and n! orders |
| QueryCounts.NormalizedBounded | src/netspeak/QueryNormalizer.cpp:1184-1216 | so a call adds no more norm queries than are counted on the query, and where these fit into the budget it is not refused for being too many |
| QuerySimplifiers.OptionToSimple | src/netspeak/QueryNormalizer.cpp:157-173 | an option set of at most one element also accepts the empty phrase |
| QuerySimplifiers.AltToSimple | src/netspeak/QueryNormalizer.cpp:272-280 | an alternation of the simplified parts, nested ones inlined, means the same |
| QuerySimplifiers.ConcatToSimple | src/netspeak/QueryNormalizer.cpp:282-291 | so does a concatenation |
| QuerySimplifiers.PlusBy | src/netspeak/QueryNormalizer.cpp:84-91 | a plus is a question mark and a star |
| QuerySimplifiers.DictToSimple | src/netspeak/QueryNormalizer.cpp:105-155 | a dictionary word stands for itself and all its synonyms, split into words |
| SplitWordsLaws.SplitIsJoined | src/netspeak/QueryNormalizer.cpp:137-139 | the words of a synonym have no spaces, and joined by single spaces they are the synonym |
| SplitWordsLaws.JoinedIsSplit | src/netspeak/QueryNormalizer.cpp:137-139 | they are the only such words |
| QuerySimplifiers.OrderToSimple | src/netspeak/QueryNormalizer.cpp:175-270 | an order set accepts its elements in every order; what the early exits leave out is longer than allowed; it is rejected exactly when a part is rejected before the loop stops, or all parts together fit and have too many orders |
| SimplifiedRanges.OrderSetRejectedIff | src/netspeak/QueryNormalizer.cpp:199-232 | an order set whose elements have lengths is rejected exactly when they fit the maximum length together and seven or more are more than the empty phrase, or these have more orders than there may be norm queries |
| SimplifiedRanges.OrderSetStopsAt | src/netspeak/QueryNormalizer.cpp:199-217 | the first element that is rejected or accepts nothing decides, whatever stands behind it |
| SimplifiedRanges.WordsInAnyOrderRejectedIff | src/netspeak/QueryNormalizer.cpp:219-232 | an order set of plain words is rejected exactly when it fits the maximum length and has seven or more words or too many orders |
| QuerySimplifiers.AllOrders | src/netspeak/QueryNormalizer.cpp:255-269 | the std::next_permutation loop yields one concatenation for each order of the elements, in lexicographic order |
| Arrangements.RunIsArranged | src/netspeak/QueryNormalizer.cpp:255-267 | a full run of std::next_permutation visits exactly the recursively listed orders, in that order |
| Arrangements.ArrangedHas | src/netspeak/QueryNormalizer.cpp:255-267 | the list holds exactly the permutations |
| Arrangements.ArrangedCount | src/netspeak/QueryNormalizer.cpp:193-197 | there are n! of them |
| QueryOptimizer.AbsorbCorrect | src/netspeak/QueryNormalizer.cpp:405-498 | the two star passes keep the language, leave a subsequence with all fixed units, and no question mark run or optional unit next to a star |
| StarRuns.AbsorbIsByRuns | src/netspeak/QueryNormalizer.cpp:405-498 | the passes reduce every maximal run without a blocking unit by itself: with a star, its first star and its question marks are left, without one it stays, and so do the blocking units |
| StarRuns.OneStarCounts | src/netspeak/QueryNormalizer.cpp:405-498 | a reduced run has exactly one star, as many question marks as before, and nothing else |
| QueryOptimizer.ConcatStarOptimization | src/netspeak/QueryNormalizer.cpp:405-498 | the marking loops and the erasing loop compute exactly the two passes |
| QueryOptimizer.EraseMarked | src/netspeak/QueryNormalizer.cpp:470-498 | erasing marked positions from the back keeps the unmarked children in order |
| QueryOptimizer.InlineNested | src/netspeak/QueryNormalizer.cpp:389-403 | nested concatenations (alternations) are replaced by their children |
| QueryOptimizer.Optimize | src/netspeak/QueryNormalizer.cpp:560-562 | the optimised tree is a function of the tree, has the same language for every meaning of its regexes, is no heavier, and no concat (alternation) has a concat (alternation) child |
| NormCounts.EmittedByTree | src/netspeak/QueryNormalizer.cpp:835-1013 | the number of norm queries of a tree is the one that is counted on the tree: the sum over alternatives and words, in a row one path after the other, and for each path the fillings of its stars |
| OptimizedCounts.OptimizerNeverEnlarges | src/netspeak/QueryNormalizer.cpp:358-563 | the optimised tree never gives more norm queries than the tree, whatever words replace its regexes |
| Permutations.NextPermutation | src/netspeak/util/ChainCutter.hpp:121-125 | the next arrangement is the least one above the current, and false is returned only at the last one |
| Permutations.SuccessorIsLeast | src/netspeak/util/ChainCutter.hpp:121-125 | nothing lies between an arrangement and its successor |
| Permutations.DoneVisiting | src/netspeak/util/ChainCutter.hpp:121-125 | a run from the first to the last arrangement visits every one |
| Combinatorics.BinomialExactIff | src/netspeak/util/Math.hpp:8-16 | with wrapping products and truncating divisions the recursion gives the binomial coefficient exactly when k times it fits into the type |
| Combinatorics.BinomialWraps | src/netspeak/util/Math.hpp:8-16 | a pair for which it does not, in 64 bits |
| Combinatorics.Factorial | src/netspeak/util/Math.hpp:18-25 | the loop computes the factorial modulo the number of values of the type |
| Combinatorics.FillingsBound | src/netspeak/QueryNormalizer.cpp:574-585 | C(a + k, k), the number of ways to fill k stars, is at most the product (a + 1)^k that the estimate takes for them |
| ChainCutters.ChainCutter.Next | src/netspeak/util/ChainCutter.hpp:121-125 | the state moves to its successor, the output is the segments of the state |
| ChainCutters.SegmentsOfChain | src/netspeak/util/ChainCutter.hpp:50-62 | cutting the chain of a segment list gives the list back |
| ChainCutters.EveryCutOnce | src/netspeak/util/ChainCutter.hpp:42-126 | a run visits every (cuts + 1)-tuple that sums to length exactly once, and C(cuts + length, cuts) of them |
| ChainCutters.ChainCutter.Size | src/netspeak/util/ChainCutter.hpp:96-98 | size is that number exactly when the last product fits into 64 bits |
| StarQueries.StarQueriesTraces | src/netspeak/QueryNormalizer.cpp:835-968 | the star queries of a tree have exactly the traces of the tree that fit the maximum length, although long prefixes are dropped in the product |
| StarQueries.StarQueriesBetween | src/netspeak/QueryNormalizer.cpp:835-968 | their fixed lengths lie between the least length and the weight of the tree |
| StarQueries.ConcatUnit | src/netspeak/QueryNormalizer.cpp:850-920 | the concat loop over a query list computes the specified expansion |
| StarQueries.AlternationUnit | src/netspeak/QueryNormalizer.cpp:921-968 | so does the alternation with its filter |
| Traces.ErasedTraces | src/netspeak/QueryNormalizer.cpp:770-833 | forgetting which words of a trace are fixed gives the language of the tree |
| NormQueries.FilledSound | src/netspeak/QueryNormalizer.cpp:1033-1078 | whatever a filled star query matches is a trace of the star query |
| NormQueries.FilledComplete | src/netspeak/QueryNormalizer.cpp:1033-1078 | every trace is matched by one filling |
| NormQueries.AddWithStars | src/netspeak/QueryNormalizer.cpp:1033-1078 | every filling within the maximum length is added once, unless the budget is exceeded |
| NormQueries.ToNormQueries | src/netspeak/QueryNormalizer.cpp:991-1013 | the loop emits the kept star queries or reports that there are too many norm queries, exactly when there are star queries and the list with their norm queries exceeds the budget |
| NormQueries.EmissionMeaning | src/netspeak/QueryNormalizer.cpp:991-1013 | a phrase is matched iff the tree accepts it within the maximum length along a path with enough fixed words |
| NormQueries.EmissionSound | src/netspeak/QueryNormalizer.cpp:991-1013 | every matched phrase is accepted and has a permitted length |
| NormQueries.EmissionComplete | src/netspeak/QueryNormalizer.cpp:991-1013 | with minimum length 0 every accepted phrase within the maximum length is matched |
| MinimumLengths.MinLengthLosesPhrases | src/netspeak/QueryNormalizer.cpp:1001 | a query and a minimum length for which an accepted phrase is lost |
| MinimumLengths.FindsAllIff | src/netspeak/QueryNormalizer.cpp:991-1013 | exactly when a whole tree loses no phrase of a permitted length: every filling of a dropped star query is covered by one of a kept star query |
| MinimumLengths.LongTreeComplete | src/netspeak/QueryNormalizer.cpp:1001 | with a minimum length up to the tree's own the norm queries match exactly what the tree accepts within the maximum length |
| MinimumLengths.EnoughFixedWords | src/netspeak/QueryNormalizer.cpp:1001 | nothing is lost if every star query with a star fixes enough words |
| NormQueries.StarQueryCompleteIff | src/netspeak/QueryNormalizer.cpp:1001 | exactly when one star query loses no phrase of a permitted length |
| NormQueryCounters.SafeMultExact | src/netspeak/QueryNormalizer.cpp:647-655 | without overflow the product is exact |
| NormQueryCounters.SafeMultDetects | src/netspeak/QueryNormalizer.cpp:647-655 | an overflow is noticed exactly when the last addition of the larger factor crosses a multiple of 2^64 or ends right before one; a first overflow always is |
| NormQueryCounters.SafeMultMisses | src/netspeak/QueryNormalizer.cpp:647-655 | an overflow that is not noticed |
| NormQueryCounters.IdealMonotone | src/netspeak/QueryNormalizer.cpp:702-759 | the estimate rises with the number of words per regex |
| NormQueryCounters.EstimateConcat | src/netspeak/QueryNormalizer.cpp:721-759 | the loop with its running margins and early returns computes the estimate, defined by recursion over the tree, for every number of words |
| NormQueryCounters.EstimateTracks | src/netspeak/QueryNormalizer.cpp:702-759 | the estimate is the exact number until that exceeds 64 bits |
| EstimateExact.IdealOfRow | src/netspeak/QueryNormalizer.cpp:702-759 | for w words or question marks, r regexes of m words and k stars in a row the estimate is m^r (limit - w - r + 1)^k |
| EstimateExact.EstimateIsAttained | src/netspeak/QueryNormalizer.cpp:574-759 | where alternatives are equally long and each path has at most one star, exactly as many norm queries are given as estimated |
| StarRooms.EstimateAsIntendedIff | src/netspeak/QueryNormalizer.cpp:710 | the estimate is at least the one in which a star without room counts once, and equal to it if and only if no star that counts has more fixed words around it than allowed |
| StarRooms.LongPartGivesNothing | src/netspeak/QueryNormalizer.cpp:835-1013 | words and a star that are longer than allowed, beside a regex: one norm query for each word of the regex, none for the rest |
| StarRooms.LongPartRefused | src/netspeak/QueryNormalizer.cpp:1127-1162 | and that query is refused as too complex under any budget of up to four billion |
| EstimateOverflow.ExactIffNothingMissed | src/netspeak/QueryNormalizer.cpp:647-759 | every estimate in a tree is the exact number, cut at 2^64 - 1, if and only if no product on the way misses an overflow |
| EstimateOverflow.RegexesEmit | src/netspeak/QueryNormalizer.cpp:835-1013 | n regexes of m words each in a row give exactly m^n norm queries |
| EstimateOverflow.EstimateCanMissOverflow | src/netspeak/QueryNormalizer.cpp:647-759 | three regexes of 2642250 words each: an estimate below 10^14 for more than 10^19 norm queries |
| EstimateOverflow.OverflowRefusesTree | src/netspeak/QueryNormalizer.cpp:1127-1182 | so their query is refused for too many norm queries after its regexes were replaced within the budget |
| RegexReplacement.ReplacedLang | src/netspeak/QueryNormalizer.cpp:1163-1180 | replacing regexes by words gives the language in which each regex stands for those words |
| RegexReplacement.EstimateIsUpperBound | src/netspeak/QueryNormalizer.cpp:574-759 | with at most m words per regex no more norm queries are emitted than the exact estimate for m |
| RegexReplacement.BinarySearch | src/netspeak/QueryNormalizer.cpp:1111-1125 | a value that passes the comparison, or the untested lower bound; for a rising comparison everything above it is too much, unless it hits the target just as well |
| RegexReplacement.ChooseForTree | src/netspeak/QueryNormalizer.cpp:1132-1155 | the number of words per regex, a function of tree and options |
| RegexReplacement.ChosenIsBest | src/netspeak/QueryNormalizer.cpp:1132-1155 | it is the largest permitted one within the budget, unless the exact estimate exceeds 64 bits |
| RegexReplacement.NothingChosenIff | src/netspeak/QueryNormalizer.cpp:1157-1162 | it is 0 exactly when one word per regex is estimated to be too much |
| RegexReplacement.NormalizeRegexes | src/netspeak/QueryNormalizer.cpp:1127-1182 | every regex is replaced by that many words found for it, or the query is too complex if the number is 0 |
| RegexReplacement.ReplacedStaysInBudget | src/netspeak/QueryNormalizer.cpp:1127-1182 | after the replacement the number of norm queries stays within the budget |
| QueryNormalizers.Normalize | src/netspeak/QueryNormalizer.cpp:1184-1216 | end to end, of the query: norm queries are sound; complete exactly when the minimum length drops no star query that is needed, which holds if every path of the final tree is long enough; they match exactly the phrases with enough fixed words on a path of that tree. A call fails exactly for an order set that is too large, no word per regex being chosen, or too many norm queries; the number of words per regex is the best one, and with regexes there are never too many norm queries, unless the exact estimate exceeds 64 bits |
| QueryNormalizers.EffectiveMeaning | src/netspeak/QueryNormalizer.cpp:1196-1202 | where regexes are allowed and at least one word is permitted, a query means what it says with these words for its regexes; otherwise its regexes accept nothing |
| NormalizerLaws.LoneRegex | src/netspeak/QueryNormalizer.cpp:1127-1216 | a regex by itself is never refused and its norm queries match exactly the words that the index gives for the folded text, asked for the smaller of the permitted number and the budget, as a 32-bit number |
| NormalizerLaws.TooManyWordsFindNothing | src/netspeak/QueryNormalizer.cpp:1165-1169 | if that number is a multiple of 2^32, nothing is found |
| RegexQueries.RegexQueryBuilder.Add | src/netspeak/regex/RegexQuery.cpp:239-321 | after any sequence of units the builder denotes their concatenation and stays canonical |
| RegexQueries.RegexQueryBuilder.ToQuery | src/netspeak/regex/RegexQuery.hpp:183-194 | the query handed out has that language |
| RegexQueries.WithoutDuplicates | src/netspeak/regex/RegexQuery.cpp:203-223 | the same characters, each once |
| RegexQueries.RemoveTrailingOptionalWords | src/netspeak/regex/RegexQuery.cpp:169-192 | in front of a star the optional words may go, and nothing is left that a star would absorb |
| RegexQueries.RejectAllIffEmpty | src/netspeak/regex/RegexQuery.hpp:65-74 | a built query rejects everything iff it is the reject-all query |
| RegexBounds.CombinationsUpperBound | src/netspeak/regex/RegexQuery.cpp:34-60 | a result below the maximum is the exact number of combinations, 0 says that nothing matches, the maximum that a prefix has a wildcard or too many combinations; the product never wraps |
| RegexBounds.RejectAll | src/netspeak/regex/RegexQuery.hpp:65-74 | exact on every query the builder makes |
| RegexBounds.CombosSound | src/netspeak/regex/DefaultRegexIndex.cpp:475-498 | every generated string matches, even with wildcards taken literally |
| RegexBounds.CombosComplete | src/netspeak/regex/DefaultRegexIndex.cpp:475-498 | without wildcards every match is generated |
| RegexBounds.MinUtf8InputLength | src/netspeak/regex/RegexQuery.cpp:76-114 | the least number of bytes of a match, attained |
| RegexBounds.MaxUtf8InputLength | src/netspeak/regex/RegexQuery.cpp:115-152 | the greatest number of bytes of a match, attained when anything matches, unless there is a star |
| RegexBounds.AcceptsIffMatches | src/netspeak/regex/DefaultRegexIndex.cpp:529-563 | backtracking over the units decides membership in the language |
| Utf8.EncodingIsInjective | src/netspeak/regex/DefaultRegexIndex.cpp:417-422 | the comparison of the bytes of two words compares their characters |
| Utf8.ByteLengthIsEncodedLength | src/netspeak/regex/RegexQuery.cpp:66-74 | the byte count is the length of the encoding |
| RegexParser.ParseNetspeakRegexQuery | src/netspeak/regex/parsers.cpp:46-130 | for every string: the query matches exactly the texts that `RegexSyntax.Reads` lists, token by token: any character for `?`, any text for `*` and for two or more dots, text with characters for `+`, the character or nothing for one in brackets, one of several in brackets, as many out of them as there are for braces, and itself for everything else |
| RegexSyntax.ReadsIsMeaning | src/netspeak/regex/parsers.cpp:46-130 | reading a text token by token is the language of the tokens |
| RegexSyntax.QMarkLaw | src/netspeak/regex/parsers.cpp:59-61 | `?` is any character |
| RegexSyntax.StarLaw | src/netspeak/regex/parsers.cpp:62-64 | `*` is any text |
| RegexSyntax.PlusLaw | src/netspeak/regex/parsers.cpp:65-68 | `+` is any text with characters |
| RegexSyntax.DotsLaw | src/netspeak/regex/parsers.cpp:70-80 | two or more dots are any text |
| RegexSyntax.DotLaw | src/netspeak/regex/parsers.cpp:70-80 | one dot is itself |
| RegexSyntax.OptionalLaw | src/netspeak/regex/parsers.cpp:82-102 | one character in brackets is that character or nothing |
| RegexSyntax.SetLaw | src/netspeak/regex/parsers.cpp:82-102 | several characters in brackets are one of them |
| RegexSyntax.BraceLaw | src/netspeak/regex/parsers.cpp:105-121 | n characters in braces are n characters out of them |
| RegexSyntax.LiteralLaw | src/netspeak/regex/parsers.cpp:82-125 | any other character is itself, also a bracket or brace that is not closed |
| RegexParser.ReadUntilChar | src/netspeak/regex/parsers.cpp:28-43 | the text before the first end character, or none |
| RegexSyntax.PlainTextMeansItself | src/netspeak/regex/parsers.cpp:123-125 | text without syntax characters matches itself only |
| RegexSyntax.BraceMeaning | src/netspeak/regex/parsers.cpp:105-121 | a brace of n characters matches the strings of n characters out of them |
| Bits.NextPowOf2IsLeast | src/netspeak/regex/DefaultRegexIndex.cpp:126-135 | the bit smearing finds the least power of two that is not smaller, and 0 where there is none in 32 bits |
| Bits.MaskIsRemainder | src/netspeak/regex/DefaultRegexIndex.cpp:313-317 | masking with a power of two minus one is the remainder |
| WordTables.TableSizeFacts | src/netspeak/regex/DefaultRegexIndex.cpp:299-304 | the table is a power of two, one slot for one word, larger than the number of words from two words on |
| WordTables.InitializeWordHashTable | src/netspeak/regex/DefaultRegexIndex.cpp:299-330 | every word index is stored once, only earlier indexes on its way |
| WordTables.SomeSlotIsEmpty | src/netspeak/regex/DefaultRegexIndex.cpp:302-304 | from two words on a slot is left empty |
| WordTables.FindWord | src/netspeak/regex/DefaultRegexIndex.cpp:405-427 | the lowest index of an equal word, absent iff there is none, out of bounds exactly under a stated condition |
| WordTables.EmptyLastSlotIsSafe | src/netspeak/regex/DefaultRegexIndex.cpp:425 | with an empty last slot no look-up leaves the table |
| TableOverruns.NeverOverrunsIff | src/netspeak/regex/DefaultRegexIndex.cpp:405-427 | no look-up at all leaves the table if and only if its last slot is empty (or it has 2^32 slots) |
| TableOverruns.SomeWordHashes | src/netspeak/regex/DefaultRegexIndex.cpp:137-148 | every hash value is that of some word of any length from seven on |
| WordTables.StoredWordOverrunsIffWrapped | src/netspeak/regex/DefaultRegexIndex.cpp:425 | a stored word cannot be found exactly when its slot wrapped around |
| WordTables.SingleWordVocabulary | src/netspeak/regex/DefaultRegexIndex.cpp:302-304 | with one word every other word leaves the table |
| WordTables.EmptyVocabulary | src/netspeak/regex/DefaultRegexIndex.cpp:302-304 | without words every look-up leaves the table |
| WordTables.LostWord | src/netspeak/regex/DefaultRegexIndex.cpp:425 | two words of which the second cannot be looked up |
| RegexIndexes.InitializeWords | src/netspeak/regex/DefaultRegexIndex.cpp:245-265 | the word list is the non-empty lines |
| RegexIndexes.LinesOfJoined | src/netspeak/regex/DefaultRegexIndex.cpp:245-265 | writing words line by line and indexing them gives them back |
| RegexIndexes.LinesKeepCharacters | src/netspeak/regex/DefaultRegexIndex.cpp:267-297 | the characters of the text are those of the words, but for line breaks |
| RegexIndexes.OptimizeQuery | src/netspeak/regex/DefaultRegexIndex.cpp:344-396 | the optimised query agrees with the given one on all strings over the known characters, and without wildcards it matches no other strings |
| RegexIndexes.HashLookup.Match | src/netspeak/regex/DefaultRegexIndex.cpp:475-498 | the recursion over a shared word adds the first index of exactly the combinations that are words, and restores the word |
| RegexIndexes.TakeDistinct | src/netspeak/regex/DefaultRegexIndex.cpp:512-526 | the first distinct indexes of a sorted list |
| RegexIndexes.DefaultRegexIndex.MatchQueryHashLookup | src/netspeak/regex/DefaultRegexIndex.cpp:499-527 | the first words, in vocabulary order, among the combinations; undefined exactly when a combination leaves the table |
| RegexIndexes.DefaultRegexIndex.MatchQueryRegex | src/netspeak/regex/DefaultRegexIndex.cpp:529-563 | the first matching words whose length passes the 16-bit comparison |
| RegexIndexes.LookupFindsAll | src/netspeak/regex/DefaultRegexIndex.cpp:593-599 | enumerating the query as given finds the right words even when only the optimised one is finite |
| RegexIndexes.DefaultRegexIndex.MatchQuery | src/netspeak/regex/DefaultRegexIndex.cpp:566-603 | on all four paths exactly the first max_matches words of the language are appended, in vocabulary order |
| Heaps.MakeHeap | src/netspeak/util/LfuCache.hpp:94 | rearranges into a heap |
| Heaps.AnotherLeastRoot | src/netspeak/util/LfuCache.hpp:118-126 | among several elements of least rank any may be the root of a heap |
| Heaps.PopHeap | src/netspeak/util/LfuCache.hpp:177 | moves the root to the end and leaves a heap |
| LfuCaches.LeastAtRoot | src/netspeak/util/LfuCache.hpp:174-182 | the key at the root has the least priority of all |
| LfuCaches.RemoveTop | src/netspeak/util/LfuCache.hpp:174-182 | the root leaves heap, map and memory, which stay in bijection |
| LfuCaches.TryInsert | src/netspeak/util/LfuCache.hpp:159-172 | a new key gets priority 1 and a cell of its own; a full cache loses a key of least priority and never the new one |
| LfuCaches.LfuCache.Insert | src/netspeak/util/LfuCache.hpp:79-84 | contents, counts and linking after an insertion |
| LfuCaches.LfuCache.Update | src/netspeak/util/LfuCache.hpp:86-97 | the value is replaced and the count reset, or the key inserted |
| LfuCaches.LfuCache.Find | src/netspeak/util/LfuCache.hpp:104-116 | the value, with one more find counted for this key only |
| LfuCaches.LfuCache.Erase | src/netspeak/util/LfuCache.hpp:118-126 | removes exactly one key, the one at the root of some heap of the lowered priorities: the given one unless another priority has wrapped to 0 |
| LfuCaches.ErasesKeyIff | src/netspeak/util/LfuCache.hpp:118-126 | the given key is removed, whichever heap std::make_heap leaves, if and only if no other key has priority 0 |
| LfuCaches.CountedErasesKeyIff | src/netspeak/util/LfuCache.hpp:104-126 | that is, if and only if no other key was found 2^32 - 1 times modulo 2^32 |
| LfuCaches.WrongKeyErased | src/netspeak/util/LfuCache.hpp:118-126 | a cache of two keys that may lose the other one |
| LfuCaches.LfuCache.Clear | src/netspeak/util/LfuCache.hpp:147-155 | every cell is freed |
| PropertiesFormat.TextIsRead | src/netspeak/util/PropertiesFormat.hpp:35-56 | reading what was written gives the same pairs, for all ASCII strings |
| PropertiesLayouts.LayoutIsRead | src/netspeak/util/PropertiesFormat.cpp:26-197 | every layout is read as its pairs: blank lines, comments, both signs or spaces as delimiters, characters as they are, quoted or as codes with small or capital digits, and lines that go on |
| PropertiesLayouts.ReadIffLayout | src/netspeak/util/PropertiesFormat.hpp:35-44 | a text is read without an error if and only if it is such a layout, and then as its pairs |
| PropertiesFormat.ReadProperties | src/netspeak/util/PropertiesFormat.hpp:35-44 | the stream reader yields the pairs and the error that the format defines |
| PropertiesFormat.ReadKey | src/netspeak/util/PropertiesFormat.cpp:152-177 | the key loop reads what the format defines, with its errors |
| PropertiesFormat.ReadValue | src/netspeak/util/PropertiesFormat.cpp:178-197 | so does the value loop |
| PropertiesFormat.ReadEscaped | src/netspeak/util/PropertiesFormat.cpp:98-146 | and the escape sequences |
| PropertiesFormat.WriteProperties | src/netspeak/util/PropertiesFormat.hpp:46-56 | writing succeeds exactly on ASCII pairs |
| Retrieval.BeginSkipsOnlyAbove | src/netspeak/RetrievalStrategy3.hpp:338-365 | the sampled start skips no entry below the bound, and none at the bound when samples start a frequency |
| Retrieval.SearchLosesNothingIff | src/netspeak/RetrievalStrategy3.hpp:338-365 | exactly when a sampled search skips no entry of its frequency |
| Retrieval.TiesAreSkipped | src/netspeak/RetrievalStrategy3.hpp:348-350 | a sample that makes the search lose an entry |
| Retrieval.BeginIs | src/netspeak/RetrievalStrategy3.hpp:345-359 | the start is the first sample that has the frequency, else the last one above it, if a sample is not above it |
| Retrieval.StartsAtLastAboveIff | src/netspeak/RetrievalStrategy3.hpp:351-359 | a search that hits no sample starts at the last one above its frequency if and only if some sample is below, or that last one stands at the beginning |
| Retrieval.PrunedAway | src/netspeak/RetrievalStrategy3.hpp:345-364 | a list whose samples are all above the frequency: the pruned read from the beginning misses the entry that a start at the last sample finds |
| Retrieval.Collect | src/netspeak/RetrievalStrategy3.hpp:149-193 | skipping and copying is a filter on a sorted postlist |
| Retrieval.NextCommon | src/netspeak/RetrievalStrategy3.hpp:195-240 | one intersection with the tightened bound leaves exactly the common entries |
| Retrieval.Intersect | src/netspeak/QueryProcessor.hpp:73-140 | the loop with its two sets answers with the first entries common to all words, and reports exactly the unknown word that it meets before nothing is left in common |
| Retrieval.ReportedIff | src/netspeak/QueryProcessor.hpp:73-140 | at most one word is reported, and w is if and only if it has characters, belongs to a unit without a postlist, and the units before have postlists with an entry in common |
| Retrieval.Process | src/netspeak/QueryProcessor.hpp:73-140 | so it does whatever the order of the units, and the reported word is the one of an arrangement in ascending order of frequency; with coherent lists alone the answer is still sound |
| Retrieval.AnswerIsUnique | src/netspeak/QueryProcessor.hpp:73-140 | there is one such answer |
| PostlistSorter.Scatter | src/netspeak/invertedindex/PostlistSorter.hpp:92-115 | sorted runs, none empty, none longer than a bucket, with the same values |
| PostlistSorter.Merge | src/netspeak/invertedindex/PostlistSorter.hpp:63-90 | the k-way merge terminates with all values in order |
| PostlistSorter.SortPostlist | src/netspeak/invertedindex/PostlistSorter.hpp:30-40 | a sorted rearrangement for every memory limit |
| RefMerge.DisjointWithIsExact | src/netspeak/model/RawRefResult.cpp:13-34 | the test of the end points is true iff the slices share no reference |
| RefMerge.DisjointWithIff | src/netspeak/model/RawRefResult.cpp:13-34 | for slices cut anywhere the test says exactly that one ends before the other starts, at another frequency |
| RefMerge.MergeCoversIff | src/netspeak/model/RawRefResult.cpp:36-51 | exactly when slices cut anywhere that overlap or touch merge to the covering slice |
| RefMerge.MergeIsCoveringSlice | src/netspeak/model/RawRefResult.cpp:36-51 | slices that overlap or touch merge to the covering slice |
| RefMerge.Merge | src/netspeak/model/RawRefResult.cpp:36-51 | the merge loop computes that union |
| RefMerge.MergeLosesTies | src/netspeak/model/RawRefResult.hpp:70-78 | slices cut inside a run of equal frequencies lose a reference |
| UnsortedInput.InsertRecord | src/netspeak/invertedindex/UnsortedInput.hpp:154-162 | a record keeps all records of its key in one bucket, in order |
| UnsortedInput.Rehash | src/netspeak/invertedindex/UnsortedInput.hpp:113-138 | so does redistribution, whatever order the files are listed in |
| UnsortedInput.Indexer.Insert | src/netspeak/invertedindex/UnsortedInput.hpp:154-189 | after any interleaving of insertions and rehashes |
| UnsortedInput.Group | src/netspeak/invertedindex/UnsortedInput.hpp:91-111 | one postlist per key with its values in order |
| UnsortedInput.Index | src/netspeak/invertedindex/UnsortedInput.hpp:55-82 | every distinct key is stored and counted once with exactly its values, sorted as configured; fails iff a key is empty |
| PostlistIterators.VariableSizeIter.Next | src/netspeak/invertedindex/Iterator.hpp:202-210 | the next value, paged or not |
| PostlistIterators.VariableSizeIter.Swap | src/netspeak/invertedindex/Iterator.hpp:241-259 | the next page holds at least one value for every page size |
| PostlistIterators.ConstantSizeIter.Next | src/netspeak/invertedindex/Iterator.hpp:123-130 | the next value, for every page that holds one |
| PostlistIterators.ConstantSizeIter.Write | src/netspeak/invertedindex/Iterator.hpp:146-155 | writes the payload page by page |
| PostlistFiles.PostlistBuilder.PushBack | src/netspeak/invertedindex/PostlistBuilder.hpp:87-98 | values stay in memory until they exceed a page |
| PostlistFiles.PostlistBuilder.Build | src/netspeak/invertedindex/PostlistBuilder.hpp:39-76 | the built postlist iterates over exactly the pushed values; only values of one size have to fit a page |
| PostlistFiles.ReadSlice | src/netspeak/invertedindex/PostlistReader.hpp:31-107 | any begin and length give an iterator over the clamped slice, read in one piece or in pages of the default size |
| PostlistFiles.RoundTrip | src/netspeak/invertedindex/PostlistReader.hpp:31-107 | pushed, built, written, read and iterated twice: the same slice both times |

## Left out

- The ANTLR grammar and the parse-tree listener: the model starts from the query tree.
- gRPC, protobuf, the command line, Python bindings, logging and JSON: no logic of their own.
- The perfect hashing of the phrase dictionary: its library is not shown; frequencies and the jump-in frequency are parameters, so `extract_longest_substrings` is not part of this model.
- boost::regex: a query's denotation and a backtracking matcher take its place.
- ICU lower-casing: a function parameter of the query configuration.
- Timeouts, mutexes, asynchronous construction and file system failures: no property depends on them.
- The floating-point quantiles that choose the samples: any true samples are allowed.
- Source back-pointers of units, path handling of configurations, stream output operators: they add only easy members.
- The merging of unknown words of two results: sorting and removing duplicates only.
- QueryNormalizers.Normalize: the longest fixed length of the query is assumed to be below UINT32_MAX, where the source's 32-bit sums would wrap; the regex index is a function from a text and a maximum to words, which the regex modules describe.
- RegexIndexes.DefaultRegexIndex.MatchQuery: assumes, for the exact answer, distinct words, no carriage return in a word when the query has wildcards, and matches of at most 65535 bytes; words are kept as text and not as offsets and lengths, and lines of more than 65535 bytes are excluded.
- RegexIndexes.OptimizeQuery: the characters that remain in a character set keep their order, where the source takes the order of a hash set; the builder sorts them in either case.
- WordTables.HashWord: takes `char` as signed, as on the platforms Netspeak is built for.
- LfuCaches.LfuCache.Reserve: the capacity of a vector is the one that was asked for.
- UnsortedInput.Indexer.Insert: the new number of buckets is any positive number, because it comes from a floating-point estimate and the next prime.
- PostlistFiles.PostlistBuilder.Build: values that all have one size must not be larger than a page, because a page of the source takes whole values only and would take none.
- PostlistFiles.ReadSlice: likewise for values of one size above 5 MiB, the default page size, unless they are read in one piece.
- PostlistFiles.MakeHead: the total size is not cut to 32 bits.
- PropertiesFormat.InStream: a character stands for one byte, and stream positions in error messages are not modelled.
