/**
 * What the guard on the minimum length (src/netspeak/QueryNormalizer.cpp, to_norm_queries) does to a whole tree:
 * star queries with too few fixed places are dropped although their stars could make up for it.
 */
module MinimumLengths {
  import opened MachineInts
  import opened Languages
  import opened ChainCutters
  import opened SimpleQueries
  import opened Traces
  import opened StarQueries
  import opened NormQueries

  // ---------------------------------------------------------------- phrases and fillings

  ghost predicate IsFillingOf(q: StarQuery, t: seq<nat>)
  {
    |t| == StarCount(q.units)
  }

  lemma FitsByFilling(q: StarQuery, limit: nat, t: seq<nat>, p: Phrase)
    requires IsFillingOf(q, t) && Matches(Filled(q.units, t), p) && |p| <= limit
    ensures Fits(q.units, limit, p)
  {
    var s := FilledSound(q.units, t, p);
  }

  lemma FillingOfPhrase(q: StarQuery, limit: nat, p: Phrase) returns (t: seq<nat>)
    requires q.Valid() && Fits(q.units, limit, p)
    ensures IsFillingOf(q, t) && Matches(Filled(q.units, t), p)
    ensures q.minLength <= |p|
  {
    var s :| Has(UnitsTraces(q.units), s) && Words(s) == p;
    t := FilledComplete(q.units, s);
  }

  /** What the star queries of a tree fit, all of them taken together, is what the tree accepts. */
  lemma FitsIsAccepted(root: Unit, limit: uint32, p: Phrase)
    requires RegexFree(root) && Weight(root) < UINT32_MAX && |p| <= limit
    ensures Has(Lang(root, NoRegexes()), p)
       <==> exists q :: q in StarQueriesOf(root, limit) && Fits(q.units, limit, p)
  {
    var o := Options(0, 0, limit, 0);
    var queries := StarQueriesOf(root, limit);
    KeptFitsMeaning(root, o, p);
    ErasedTraces(root, NoRegexes());
    StarQueriesReady(root, limit);
    if Has(Lang(root, NoRegexes()), p) {
      assert AcceptedLongEnough(root, o, p);
      var i :| 0 <= i < |queries| && Fits(queries[i].units, limit, p);
      assert queries[i] in queries;
    }
    if q :| q in queries && Fits(q.units, limit, p) {
      var i :| 0 <= i < |queries| && queries[i] == q;
      var t := FillingOfPhrase(q, limit, p);
      assert KeptFits(queries, o, p);
    }
  }

  // ---------------------------------------------------------------- one norm query covers another

  /** Every phrase of b is one of a. */
  predicate CoversQuery(a: NormQuery, b: NormQuery)
  {
    |a| == |b| && forall i :: 0 <= i < |a| && a[i].NWord? ==> b[i] == a[i]
  }

  function Instance(nq: NormQuery, w: Word): (p: Phrase)
    ensures |p| == |nq| && forall i :: 0 <= i < |nq| ==> p[i] == if nq[i].NWord? then nq[i].text else w
  {
    seq(|nq|, i requires 0 <= i < |nq| => if nq[i].NWord? then nq[i].text else w)
  }

  ghost predicate Mentions(nq: NormQuery, w: Word)
  {
    NWord(w) in nq
  }

  /** With a word for the question marks that a does not mention, one phrase decides whether a covers b. */
  lemma CoversByInstance(a: NormQuery, b: NormQuery, w: Word)
    requires !Mentions(a, w) && Matches(a, Instance(b, w))
    ensures CoversQuery(a, b)
  {
    forall i | 0 <= i < |a| && a[i].NWord?
      ensures b[i] == a[i]
    {
      assert a[i] in a;
      assert Instance(b, w)[i] == a[i].text;
    }
  }

  function LongestText(units: seq<StarUnit>): nat
  {
    if units == [] then 0
    else Max(LongestText(units[1..]), if units[0].SWord? then |units[0].text| else 0)
  }

  function LongestOf(queries: seq<StarQuery>): nat
  {
    if queries == [] then 0 else Max(LongestOf(queries[1..]), LongestText(queries[0].units))
  }

  lemma {:induction false} LongestTextBounds(units: seq<StarUnit>, u: StarUnit)
    requires u in units && u.SWord?
    ensures |u.text| <= LongestText(units)
  {
    if u != units[0] {
      LongestTextBounds(units[1..], u);
    }
  }

  lemma {:induction false} LongestOfBounds(queries: seq<StarQuery>, q: StarQuery)
    requires q in queries
    ensures LongestText(q.units) <= LongestOf(queries)
  {
    if q != queries[0] {
      LongestOfBounds(queries[1..], q);
    }
  }

  lemma {:induction false} WordsOfFilled(units: seq<StarUnit>, t: seq<nat>, n: NormUnit)
    requires StarCount(units) <= |t| && n.NWord? && n in Filled(units, t)
    ensures SWord(n.text) in units
  {
    var front, last := units[..|units| - 1], units[|units| - 1];
    if n in Filled(front, t) {
      WordsOfFilled(front, t, n);
    } else {
      assert last == SWord(n.text);
    }
  }

  /** A word that no star query of the list mentions. */
  function FreshWord(queries: seq<StarQuery>): (w: Word)
    ensures |w| == LongestOf(queries) + 1
  {
    seq(LongestOf(queries) + 1, i => ' ')
  }

  lemma FreshIsNotMentioned(queries: seq<StarQuery>, q: StarQuery, t: seq<nat>)
    requires q in queries && IsFillingOf(q, t)
    ensures !Mentions(Filled(q.units, t), FreshWord(queries))
  {
    var w := FreshWord(queries);
    if Mentions(Filled(q.units, t), w) {
      WordsOfFilled(q.units, t, NWord(w));
      LongestTextBounds(q.units, SWord(w));
      LongestOfBounds(queries, q);
    }
  }

  // ---------------------------------------------------------------- when a minimum length loses nothing

  /** Every accepted phrase of a permitted length is matched. */
  ghost predicate FindsAll(nqs: seq<NormQuery>, root: Unit, options: Options)
  {
    forall p :: options.minLength <= |p| <= options.maxLength && Has(Lang(root, NoRegexes()), p) ==> MatchesSome(nqs, p)
  }

  /** Some filling of a kept star query covers the norm query. */
  ghost predicate CoveredByKept(nq: NormQuery, queries: seq<StarQuery>, options: Options)
  {
    exists q, t :: q in queries && Kept(q, options) && IsFillingOf(q, t) && CoversQuery(Filled(q.units, t), nq)
  }

  ghost predicate PermittedFilling(q: StarQuery, t: seq<nat>, options: Options)
  {
    IsFillingOf(q, t) && options.minLength <= |Filled(q.units, t)| <= options.maxLength
  }

  /** Every filling of permitted length of a dropped star query is covered by a filling of a kept one. */
  ghost predicate NothingDropped(queries: seq<StarQuery>, options: Options)
  {
    forall q, t :: q in queries && q.minLength < options.minLength && PermittedFilling(q, t, options)
              ==> CoveredByKept(Filled(q.units, t), queries, options)
  }

  lemma KeptFitsByQuery(queries: seq<StarQuery>, q: StarQuery, options: Options, p: Phrase)
    requires q in queries && Kept(q, options) && Fits(q.units, options.maxLength, p)
    ensures KeptFits(queries, options, p)
  {
    var i :| 0 <= i < |queries| && queries[i] == q;
  }

  lemma FoundIfCovered(nqs: seq<NormQuery>, root: Unit, options: Options, p: Phrase)
    requires RegexFree(root) && Weight(root) < UINT32_MAX
    requires Emission(nqs, StarQueriesOf(root, options.maxLength), options)
    requires NothingDropped(StarQueriesOf(root, options.maxLength), options)
    requires options.minLength <= |p| <= options.maxLength && Has(Lang(root, NoRegexes()), p)
    ensures MatchesSome(nqs, p)
  {
    var L := options.maxLength;
    var queries := StarQueriesOf(root, L);
    StarQueriesReady(root, L);
    FitsIsAccepted(root, L, p);
    var q :| q in queries && Fits(q.units, L, p);
    var t := FillingOfPhrase(q, L, p);
    if q.minLength >= options.minLength {
      KeptFitsByQuery(queries, q, options, p);
    } else {
      assert PermittedFilling(q, t, options);
      CoveredFits(Filled(q.units, t), queries, options, p);
    }
  }

  lemma CoveredFits(nq: NormQuery, queries: seq<StarQuery>, options: Options, p: Phrase)
    requires CoveredByKept(nq, queries, options) && Matches(nq, p) && |p| <= options.maxLength
    ensures KeptFits(queries, options, p)
  {
    var q, t :| q in queries && Kept(q, options) && IsFillingOf(q, t) && CoversQuery(Filled(q.units, t), nq);
    FitsByFilling(q, options.maxLength, t, p);
    KeptFitsByQuery(queries, q, options, p);
  }

  lemma CoveredIfFits(nq: NormQuery, queries: seq<StarQuery>, options: Options)
    requires forall q :: q in queries ==> q.Valid()
    requires KeptFits(queries, options, Instance(nq, FreshWord(queries)))
    ensures CoveredByKept(nq, queries, options)
  {
    var p := Instance(nq, FreshWord(queries));
    var i :| 0 <= i < |queries| && Kept(queries[i], options) && Fits(queries[i].units, options.maxLength, p);
    var q := queries[i];
    assert q in queries;
    var t := FillingOfPhrase(q, options.maxLength, p);
    FreshIsNotMentioned(queries, q, t);
    CoversByInstance(Filled(q.units, t), nq, FreshWord(queries));
  }

  lemma CoveredIfFound(nqs: seq<NormQuery>, root: Unit, options: Options, q: StarQuery, t: seq<nat>)
    requires RegexFree(root) && Weight(root) < UINT32_MAX
    requires Emission(nqs, StarQueriesOf(root, options.maxLength), options) && FindsAll(nqs, root, options)
    requires q in StarQueriesOf(root, options.maxLength) && PermittedFilling(q, t, options)
    ensures CoveredByKept(Filled(q.units, t), StarQueriesOf(root, options.maxLength), options)
  {
    var L := options.maxLength;
    var queries := StarQueriesOf(root, L);
    var p := Instance(Filled(q.units, t), FreshWord(queries));
    StarQueriesReady(root, L);
    FitsByFilling(q, L, t, p);
    FitsIsAccepted(root, L, p);
    assert MatchesSome(nqs, p);
    CoveredIfFits(Filled(q.units, t), queries, options);
  }

  /** With any minimum length, exactly this keeps every accepted phrase of a permitted length: what the stars of a
      dropped star query can be filled with is covered, place by place, by a star query that is kept. */
  lemma FindsAllIff(nqs: seq<NormQuery>, root: Unit, options: Options)
    requires RegexFree(root) && Weight(root) < UINT32_MAX
    requires Emission(nqs, StarQueriesOf(root, options.maxLength), options)
    ensures FindsAll(nqs, root, options) <==> NothingDropped(StarQueriesOf(root, options.maxLength), options)
  {
    var queries := StarQueriesOf(root, options.maxLength);
    if NothingDropped(queries, options) {
      forall p | options.minLength <= |p| <= options.maxLength && Has(Lang(root, NoRegexes()), p)
        ensures MatchesSome(nqs, p)
      {
        FoundIfCovered(nqs, root, options, p);
      }
    }
    if FindsAll(nqs, root, options) {
      forall q, t | q in queries && q.minLength < options.minLength && PermittedFilling(q, t, options)
        ensures CoveredByKept(Filled(q.units, t), queries, options)
      {
        CoveredIfFound(nqs, root, options, q, t);
      }
    }
  }

  /** A guard that is easy to check: every star query with a star fixes enough words by itself. */
  lemma EnoughFixedWords(queries: seq<StarQuery>, options: Options)
    requires forall q :: q in queries ==> q.Valid() && (!q.HasStar() || options.minLength <= q.minLength)
    ensures NothingDropped(queries, options)
  {
    forall q, t | q in queries && q.minLength < options.minLength && IsFillingOf(q, t)
      ensures !PermittedFilling(q, t, options)
    {
      FillingWithoutStar(q, t);
    }
  }

  lemma FillingWithoutStar(q: StarQuery, t: seq<nat>)
    requires q.Valid() && !q.HasStar() && IsFillingOf(q, t)
    ensures |Filled(q.units, t)| == q.minLength
  {
    StarCountPlusFixed(q.units);
    FilledLength(q.units, t);
    assert t == [] && t[..0] == [];
  }

  /** A minimum length up to the tree's own one loses nothing, and then it excludes nothing either. */
  lemma LongTreeComplete(nqs: seq<NormQuery>, root: Unit, options: Options, p: Phrase)
    requires RegexFree(root) && Weight(root) < UINT32_MAX && options.minLength <= MinLen(root)
    requires Emission(nqs, StarQueriesOf(root, options.maxLength), options)
    ensures MatchesSome(nqs, p) <==> |p| <= options.maxLength && Has(Lang(root, NoRegexes()), p)
  {
    var queries := StarQueriesOf(root, options.maxLength);
    StarQueriesBetween(root, options.maxLength);
    StarQueriesReady(root, options.maxLength);
    assert NothingDropped(queries, options);
    if MatchesSome(nqs, p) {
      EmissionSound(nqs, root, options, p);
    }
    if |p| <= options.maxLength && Has(Lang(root, NoRegexes()), p) {
      FitsIsAccepted(root, options.maxLength, p);
      var q :| q in queries && Fits(q.units, options.maxLength, p);
      var t := FillingOfPhrase(q, options.maxLength, p);
      FoundIfCovered(nqs, root, options, p);
    }
  }

  /** The query `*` asked for one to three words: it accepts every single word, no norm query at all is emitted. */
  lemma MinLengthLosesPhrases(w: Word)
    ensures var o := Options(1000, 1, 3, 0);
            && Emission([], StarQueriesOf(Star, 3), o)
            && Has(Lang(Star, NoRegexes()), [w]) && !MatchesSome([], [w])
            && !FindsAll([], Star, o)
  {
    var o := Options(1000, 1, 3, 0);
    var queries := StarQueriesOf(Star, 3);
    StarQueriesBetween(Star, 3);
    forall p
      ensures !KeptFits(queries, o, p)
    {
      if i :| 0 <= i < |queries| && Kept(queries[i], o) && Fits(queries[i].units, 3, p) {
        assert queries[i] in queries;
      }
    }
    NoneKept(queries, o);
    assert Has(Lang(Star, NoRegexes()), [w]);
  }

  lemma {:induction false} NoneKept(queries: seq<StarQuery>, options: Options)
    requires forall q :: q in queries ==> !Kept(q, options)
    ensures EmittedTotal(queries, options) == 0
  {
    if queries != [] {
      assert queries[|queries| - 1] in queries;
      NoneKept(queries[..|queries| - 1], options);
    }
  }
}
