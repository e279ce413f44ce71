/** How exact the length range of a query is (src/netspeak/model/Query.cpp). */
module QueryLengths {
  import opened MachineInts
  import opened Languages
  import opened LengthRanges
  import opened Queries
  import opened SimplifiedRanges
  import S = SimpleQueries

  /** No dictionary sets, whose range is a guess, and no option sets of several elements, which are not optional. */
  predicate ExactLengths(q: Query)
  {
    match q
    case DictSet(_) => false
    case OptionSet(cs) => |cs| <= 1 && forall c | c in cs :: ExactLengths(c)
    case OrderSet(cs) => forall c | c in cs :: ExactLengths(c)
    case Alternation(cs) => forall c | c in cs :: ExactLengths(c)
    case Concat(cs) => forall c | c in cs :: ExactLengths(c)
    case _ => true
  }

  predicate AllExactLengths(cs: seq<Query>)
  {
    forall c | c in cs :: ExactLengths(c)
  }

  /** Every regex is allowed and finds some word. */
  ghost predicate RegexesFind(config: Config, R: S.RegexMeaning)
  {
    config.allowRegex && forall t :: R(t) != iset{}
  }

  lemma AllReachesEverything()
    ensures S.Attained(Range(0, UINT32_MAX), All()) && S.Attained(Range(1, UINT32_MAX), NonEmpty())
  {
    var empty: S.Phrase, one: S.Phrase := [], [""];
    assert Has(All(), empty) && Has(NonEmpty(), one);
    forall n: nat
      ensures S.ReachesLength(All(), n) && S.ReachesLength(NonEmpty(), n)
    {
      var p: S.Phrase := seq(n + 1, i => "");
      assert Has(All(), p) && Has(NonEmpty(), p);
    }
  }

  lemma OneWordAttained(A: Language<S.Word>, w: S.Word)
    requires Has(A, [w])
    ensures S.Attained(Range(1, 1), A)
  {
    var p: S.Phrase := [w];
    assert Has(A, p) && |p| == 1;
  }

  lemma EpsilonAttained()
    ensures S.Attained(Range(0, 0), Epsilon<S.Word>())
  {
    var p: S.Phrase := [];
    assert Has(Epsilon<S.Word>(), p) && |p| == 0;
  }

  lemma LeafAttained(q: Query, config: Config, R: S.RegexMeaning)
    requires RegexesFind(config, R) && Leaf(q) && !q.DictSet?
    ensures S.Attained(QueryRange(q), QueryLang(q, config, R))
  {
    match q
    case Word(t) => OneWordAttained(QueryLang(q, config, R), config.fold(t));
    case QMark => OneWordAttained(QueryLang(q, config, R), "");
    case Regex(t) =>
      var w :| w in R(config.fold(t));
      OneWordAttained(QueryLang(q, config, R), w);
    case Star => AllReachesEverything();
    case Plus => AllReachesEverything();
  }

  /** Both ends of the range are attained. */
  lemma {:induction false} RangeAttained(q: Query, config: Config, R: S.RegexMeaning)
    requires QueryWeight(q, config) < UINT32_MAX && RegexesFind(config, R) && ExactLengths(q)
    ensures S.Attained(QueryRange(q), QueryLang(q, config, R))
    decreases q, 1
  {
    match q
    case OptionSet(cs) =>
      AnyAttained(cs, config, R);
      EpsilonAttained();
      QueryRangeAnyWithin(cs, config);
      S.UniteAttained(Range(0, 0), QueryRangeAny(cs), Epsilon(), UnionList(QueryLangs(cs, config, R)));
    case Alternation(cs) => AnyAttained(cs, config, R);
    case Concat(cs) => AllAttained(cs, config, R);
    case OrderSet(cs) =>
      AllAttained(cs, config, R);
      IdentityOrder(QueryLangs(cs, config, R));
      AttainedInLarger(QueryRangeAll(cs), CatList(QueryLangs(cs, config, R)), AnyOrder(QueryLangs(cs, config, R)));
    case _ => LeafAttained(q, config, R);
  }

  lemma {:induction false} AnyAttained(cs: seq<Query>, config: Config, R: S.RegexMeaning)
    requires QueryWeightMax(cs, config) < UINT32_MAX && RegexesFind(config, R) && AllExactLengths(cs)
    ensures S.Attained(QueryRangeAny(cs), UnionList(QueryLangs(cs, config, R)))
    decreases cs, 0
  {
    if cs != [] {
      assert cs[0] in cs;
      RangeAttained(cs[0], config, R);
      AnyAttained(cs[1..], config, R);
      QueryRangeWithin(cs[0], config);
      QueryRangeAnyWithin(cs[1..], config);
      assert QueryLangs(cs, config, R)[1..] == QueryLangs(cs[1..], config, R);
      S.UniteAttained(QueryRange(cs[0]), QueryRangeAny(cs[1..]), QueryLang(cs[0], config, R),
                      UnionList(QueryLangs(cs[1..], config, R)));
    }
  }

  lemma {:induction false} AllAttained(cs: seq<Query>, config: Config, R: S.RegexMeaning)
    requires QueryWeightSum(cs, config) < UINT32_MAX && RegexesFind(config, R) && AllExactLengths(cs)
    ensures S.Attained(QueryRangeAll(cs), CatList(QueryLangs(cs, config, R)))
    decreases cs, 0
  {
    if cs == [] {
      EpsilonAttained();
    } else {
      assert cs[0] in cs;
      RangeAttained(cs[0], config, R);
      AllAttained(cs[1..], config, R);
      QueryRangeWithin(cs[0], config);
      QueryRangeAllWithin(cs[1..], config);
      assert QueryLangs(cs, config, R)[1..] == QueryLangs(cs[1..], config, R);
      S.CatAttained(QueryRange(cs[0]), QueryRangeAll(cs[1..]), QueryLang(cs[0], config, R),
                    CatList(QueryLangs(cs[1..], config, R)));
    }
  }

  /** The range is exact: it covers every accepted length, both ends are attained, and it is empty only for a query that
      accepts nothing. */
  lemma RangeIsExact(q: Query, config: Config, R: S.RegexMeaning)
    requires QueryWeight(q, config) < UINT32_MAX && RegexesFind(config, R) && ExactLengths(q)
    ensures S.Covers(QueryRange(q), QueryLang(q, config, R)) && S.Attained(QueryRange(q), QueryLang(q, config, R))
    ensures QueryRange(q).NoLength? <==> QueryLang(q, config, R) == Nothing()
  {
    QueryCovers(q, config, R);
    RangeAttained(q, config, R);
    S.EmptyExactly(QueryRange(q), QueryLang(q, config, R));
  }

  /** An option set of two words: its range admits the empty phrase, which it does not accept. */
  lemma OptionSetRangeIsWider(a: string, b: string, config: Config, R: S.RegexMeaning)
    ensures QueryRange(OptionSet([Word(a), Word(b)])) == Range(0, 1)
    ensures !Has(QueryLang(OptionSet([Word(a), Word(b)]), config, R), [])
  {
    var cs := [Word(a), Word(b)];
    assert cs[1..] == [Word(b)] && cs[1..][1..] == [];
    assert QueryRangeAny(cs) == UniteRange(QueryRange(cs[0]), QueryRangeAny(cs[1..]));
    assert QueryRangeAny(cs[1..]) == UniteRange(QueryRange(cs[1]), QueryRangeAny([]));
    QueryLangsAt(cs, config, R, 0);
    QueryLangsAt(cs, config, R, 1);
    UnionListLacks(QueryLangs(cs, config, R), []);
  }

  lemma {:induction false} UnionListLacks(Ls: seq<Language<S.Word>>, p: S.Phrase)
    requires forall i :: 0 <= i < |Ls| ==> !Has(Ls[i], p)
    ensures !Has(UnionList(Ls), p)
  {
    if Ls != [] {
      UnionListLacks(Ls[1..], p);
      UnionHas(Ls[0], UnionList(Ls[1..]));
    }
  }
}
