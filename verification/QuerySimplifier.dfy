/** QuerySimplifier (src/netspeak/QueryNormalizer.cpp): from the syntax tree of a query to the intermediate tree. */
module QuerySimplifiers {
  import opened MachineInts
  import opened Languages
  import opened Combinatorics
  import opened Permutations
  import opened ChainCutters
  import opened Sequences
  import opened LengthRanges
  import opened Queries
  import opened StarQueries
  import opened NormQueries
  import opened QueryOptimizer
  import opened SimplifiedRanges
  import opened Arrangements
  import opened SimplifiedTrees
  import O = Options
  import S = SimpleQueries

  /** Same phrases up to the limit however the regex index reads the regexes, no heavier, and no regex unless allowed. */
  ghost predicate Simplifies(u: S.Unit, q: Query, config: Config, limit: nat)
  {
    && (forall R: S.RegexMeaning :: Upto(S.Lang(u, R), limit) == Upto(QueryLang(q, config, R), limit))
    && S.Weight(u) <= QueryWeight(q, config)
    && (!config.allowRegex ==> S.RegexFree(u))
  }

  ghost predicate AllSimplify(us: seq<S.Unit>, cs: seq<Query>, config: Config, limit: nat)
  {
    |us| == |cs| && forall i :: 0 <= i < |us| ==> Simplifies(us[i], cs[i], config, limit)
  }

  lemma {:induction false} AlternativesAgree(us: seq<S.Unit>, cs: seq<Query>, config: Config, limit: nat, R: S.RegexMeaning)
    requires AllSimplify(us, cs, config, limit)
    ensures Upto(S.LangAny(us, R), limit) == Upto(UnionList(QueryLangs(cs, config, R)), limit)
    ensures S.WeightMax(us) <= QueryWeightMax(cs, config)
  {
    if us != [] {
      AlternativesAgree(us[1..], cs[1..], config, limit, R);
      UptoUnion(S.Lang(us[0], R), S.LangAny(us[1..], R), limit);
      UptoUnion(QueryLang(cs[0], config, R), UnionList(QueryLangs(cs[1..], config, R)), limit);
      assert QueryLangs(cs, config, R)[1..] == QueryLangs(cs[1..], config, R);
      assert Simplifies(us[0], cs[0], config, limit);
    }
  }

  lemma {:induction false} PartsAgree(us: seq<S.Unit>, cs: seq<Query>, config: Config, limit: nat, R: S.RegexMeaning)
    requires AllSimplify(us, cs, config, limit)
    ensures Upto(S.LangAll(us, R), limit) == Upto(CatList(QueryLangs(cs, config, R)), limit)
    ensures S.WeightSum(us) <= QueryWeightSum(cs, config)
  {
    if us != [] {
      PartsAgree(us[1..], cs[1..], config, limit, R);
      assert QueryLangs(cs, config, R)[1..] == QueryLangs(cs[1..], config, R);
      assert Simplifies(us[0], cs[0], config, limit);
      UptoCatCongruence(S.Lang(us[0], R), S.LangAll(us[1..], R),
                        QueryLang(cs[0], config, R), CatList(QueryLangs(cs[1..], config, R)), limit);
    }
  }

  // ---------------------------------------------------------------- adding to concatenations and alternations

  /** `add_to_concat` and `add_to_alternation`: a child of the same kind is replaced by its children. */
  function AddTo(children: seq<S.Unit>, unit: S.Unit, tag: S.Tag): seq<S.Unit>
    requires tag == S.CONCAT || tag == S.ALTERNATION
  {
    if unit.Tag() == tag then children + unit.children else children + [unit]
  }

  lemma {:induction false} InlinedSnoc(us: seq<S.Unit>, u: S.Unit, tag: S.Tag)
    requires tag == S.CONCAT || tag == S.ALTERNATION
    ensures Inlined(us + [u], tag) == AddTo(Inlined(us, tag), u, tag)
  {
    if us == [] {
      assert [] + [u] == [u] && [u][1..] == [];
    } else {
      InlinedSnoc(us[1..], u, tag);
      assert (us + [u])[1..] == us[1..] + [u];
      var head := if us[0].Tag() == tag then us[0].children else [us[0]];
      AppendAssoc(head, Inlined(us[1..], tag), if u.Tag() == tag then u.children else [u]);
    }
  }

  lemma AddToAppend(start: seq<S.Unit>, children: seq<S.Unit>, u: S.Unit, tag: S.Tag)
    requires tag == S.CONCAT || tag == S.ALTERNATION
    ensures AddTo(start + children, u, tag) == start + AddTo(children, u, tag)
  {
    AppendAssoc(start, children, if u.Tag() == tag then u.children else [u]);
  }

  // ---------------------------------------------------------------- orders of a list of languages

  /** A phrase of a concatenation has a part for each language, not longer than itself. */
  lemma {:induction false} PartOf(Ls: seq<Language<S.Word>>, k: nat, p: S.Phrase) returns (x: S.Phrase)
    requires k < |Ls| && Has(CatList(Ls), p)
    ensures Has(Ls[k], x) && |x| <= |p|
  {
    var a, b := CatElim(p, Ls[0], CatList(Ls[1..]));
    if k == 0 {
      x := a;
    } else {
      x := PartOf(Ls[1..], k - 1, b);
    }
  }

  lemma {:induction false} CatListUpto(Ls: seq<Language<S.Word>>, Ms: seq<Language<S.Word>>, limit: nat)
    requires |Ls| == |Ms| && forall i :: 0 <= i < |Ls| ==> Upto(Ls[i], limit) == Upto(Ms[i], limit)
    ensures Upto(CatList(Ls), limit) == Upto(CatList(Ms), limit)
  {
    if Ls != [] {
      CatListUpto(Ls[1..], Ms[1..], limit);
      UptoCatCongruence(Ls[0], CatList(Ls[1..]), Ms[0], CatList(Ms[1..]), limit);
    }
  }

  lemma AnyOrderUpto(Ls: seq<Language<S.Word>>, Ms: seq<Language<S.Word>>, limit: nat)
    requires |Ls| == |Ms| && forall i :: 0 <= i < |Ls| ==> Upto(Ls[i], limit) == Upto(Ms[i], limit)
    ensures Upto(AnyOrder(Ls), limit) == Upto(AnyOrder(Ms), limit)
  {
    forall p: S.Phrase | |p| <= limit
      ensures InSomeOrder(p, Ls) <==> InSomeOrder(p, Ms)
    {
      if InSomeOrder(p, Ls) {
        var idx :| IsOrder(idx, |Ls|) && Has(CatList(Select(Ls, idx)), p);
        CatListUpto(Select(Ls, idx), Select(Ms, idx), limit);
        UptoHas(CatList(Select(Ls, idx)), CatList(Select(Ms, idx)), limit, p);
      }
      if InSomeOrder(p, Ms) {
        var idx :| IsOrder(idx, |Ms|) && Has(CatList(Select(Ms, idx)), p);
        CatListUpto(Select(Ls, idx), Select(Ms, idx), limit);
        UptoHas(CatList(Select(Ls, idx)), CatList(Select(Ms, idx)), limit, p);
      }
    }
    Extensional(Upto(AnyOrder(Ls), limit), Upto(AnyOrder(Ms), limit));
  }

  lemma NothingShort(A: Language<S.Word>, limit: nat)
    requires Upto(A, limit) == Nothing()
    ensures forall x :: Has(A, x) ==> |x| > limit
  {
    forall x | Has(A, x)
      ensures |x| > limit
    {
      assert Has(Upto(A, limit), x) <==> |x| <= limit;
    }
  }

  /** If one of the languages has no short phrase, no order has one. */
  lemma DeadElement(Ls: seq<Language<S.Word>>, k: nat, limit: nat)
    requires k < |Ls| && Upto(Ls[k], limit) == Nothing()
    ensures Upto(AnyOrder(Ls), limit) == Nothing()
  {
    NothingShort(Ls[k], limit);
    forall p: S.Phrase | |p| <= limit
      ensures !InSomeOrder(p, Ls)
    {
      if InSomeOrder(p, Ls) {
        var idx :| IsOrder(idx, |Ls|) && Has(CatList(Select(Ls, idx)), p);
        var j := OrderHits(idx, |Ls|, k);
        var x := PartOf(Select(Ls, idx), j, p);
      }
    }
    Extensional(Upto(AnyOrder(Ls), limit), Nothing());
  }

  /** An arrangement of a list is an order of its indexes. */
  lemma {:induction false} ArrangeIndexes(Ls: seq<Language<S.Word>>, Ms: seq<Language<S.Word>>, free: seq<nat>) returns (idx: seq<nat>)
    requires InRange(free, |Ls|) && multiset(Ms) == multiset(Select(Ls, free))
    ensures Permutes(idx, free) && InRange(idx, |Ls|) && Select(Ls, idx) == Ms
    decreases |Ms|
  {
    var chosen := Select(Ls, free);
    assert |multiset(Ms)| == |Ms| && |multiset(chosen)| == |chosen|;
    if Ms == [] {
      idx := [];
    } else {
      var k := TakeOut(Ms, chosen);
      var rest := free[..k] + free[k + 1..];
      assert Select(Ls, rest) == chosen[..k] + chosen[k + 1..];
      var tail := ArrangeIndexes(Ls, Ms[1..], rest);
      idx := [free[k]] + tail;
      PutBack(free, k);
      assert Select(Ls, idx) == [Ls[free[k]]] + Select(Ls, tail);
    }
  }

  ghost predicate InArrangement(p: S.Phrase, Ls: seq<Language<S.Word>>, Ms: seq<Language<S.Word>>)
  {
    multiset(Ms) == multiset(Ls) && Has(CatList(Ms), p)
  }

  lemma SomeArrangement(p: S.Phrase, Ls: seq<Language<S.Word>>)
    ensures InSomeOrder(p, Ls) <==> exists Ms :: InArrangement(p, Ls, Ms)
  {
    if InSomeOrder(p, Ls) {
      var idx :| IsOrder(idx, |Ls|) && Has(CatList(Select(Ls, idx)), p);
      SelectPermutes(Ls, idx);
      assert InArrangement(p, Ls, Select(Ls, idx));
    }
    if Ms :| InArrangement(p, Ls, Ms) {
      assert Select(Ls, Indexes(|Ls|)) == Ls;
      var idx := ArrangeIndexes(Ls, Ms, Indexes(|Ls|));
      assert IsOrder(idx, |Ls|);
    }
  }

  lemma {:induction false} CatListAppend(a: seq<Language<S.Word>>, b: seq<Language<S.Word>>)
    ensures CatList(a + b) == Cat(CatList(a), CatList(b))
  {
    if a == [] {
      assert a + b == b;
      EpsilonCat(CatList(b));
    } else {
      CatListAppend(a[1..], b);
      assert (a + b)[1..] == a[1..] + b;
      CatAssoc(a[0], CatList(a[1..]), CatList(b));
    }
  }

  /** The empty phrase may stand anywhere in a concatenation. */
  lemma DropEpsilon(a: seq<Language<S.Word>>, b: seq<Language<S.Word>>)
    ensures CatList(a + ([Epsilon()] + b)) == CatList(a + b)
  {
    CatListAppend(a, [Epsilon()] + b);
    CatListAppend(a, b);
    assert ([Epsilon()] + b)[1..] == b;
    EpsilonCat(CatList(b));
  }

  /** An element that is just the empty phrase can be left out of an order set. */
  lemma AnyOrderDropEpsilon(a: seq<Language<S.Word>>, b: seq<Language<S.Word>>)
    ensures AnyOrder(a + ([Epsilon()] + b)) == AnyOrder(a + b)
  {
    var long, short := a + ([Epsilon()] + b), a + b;
    InsertedMultiset(a, Epsilon(), b);
    forall p: S.Phrase
      ensures InSomeOrder(p, long) <==> InSomeOrder(p, short)
    {
      SameOrders(p, long, short);
    }
    Extensional(AnyOrder(long), AnyOrder(short));
  }

  lemma InsertedMultiset<T>(a: seq<T>, x: T, b: seq<T>)
    ensures multiset(a + ([x] + b)) == multiset{x} + multiset(a + b)
  {
  }

  lemma SameOrders(p: S.Phrase, long: seq<Language<S.Word>>, short: seq<Language<S.Word>>)
    requires multiset(long) == multiset{Epsilon<S.Word>()} + multiset(short)
    ensures InSomeOrder(p, long) <==> InSomeOrder(p, short)
  {
    SomeArrangement(p, long);
    SomeArrangement(p, short);
    if Ms :| InArrangement(p, long, Ms) {
      var Ms' := ShorterArrangement(p, long, short, Ms);
    }
    if Ms :| InArrangement(p, short, Ms) {
      LongerArrangement(p, long, short, Ms);
    }
  }

  lemma ShorterArrangement(p: S.Phrase, long: seq<Language<S.Word>>, short: seq<Language<S.Word>>, Ms: seq<Language<S.Word>>)
    returns (Ms': seq<Language<S.Word>>)
    requires multiset(long) == multiset{Epsilon<S.Word>()} + multiset(short) && InArrangement(p, long, Ms)
    ensures InArrangement(p, short, Ms')
  {
    var e: seq<Language<S.Word>> := [Epsilon()];
    assert (e + short)[1..] == short;
    var k := TakeOut(e + short, Ms);
    Ms' := Ms[..k] + Ms[k + 1..];
    DropEpsilon(Ms[..k], Ms[k + 1..]);
    assert Ms == Ms[..k] + ([Epsilon()] + Ms[k + 1..]);
  }

  lemma LongerArrangement(p: S.Phrase, long: seq<Language<S.Word>>, short: seq<Language<S.Word>>, Ms: seq<Language<S.Word>>)
    requires multiset(long) == multiset{Epsilon<S.Word>()} + multiset(short) && InArrangement(p, short, Ms)
    ensures InArrangement(p, long, [Epsilon()] + Ms)
  {
    DropEpsilon([], Ms);
    assert [] + ([Epsilon()] + Ms) == [Epsilon()] + Ms && [] + Ms == Ms;
  }

  lemma AnyOrderOfNone()
    ensures AnyOrder([]) == Epsilon()
  {
    forall p: S.Phrase
      ensures InSomeOrder(p, []) <==> p == []
    {
      var none: seq<Language<S.Word>> := [];
      assert IsOrder([], 0) && Select(none, []) == none;
      if InSomeOrder(p, []) {
        var idx :| IsOrder(idx, 0) && Has(CatList(Select(none, idx)), p);
        PermutesLength(idx, Indexes(0));
        assert Select(none, idx) == none;
      }
    }
    Extensional(AnyOrder([]), Epsilon());
  }

  lemma AnyOrderOfOne(A: Language<S.Word>)
    ensures AnyOrder([A]) == A
  {
    assert [A][1..] == [];
    CatEpsilon(A);
    assert CatList([A]) == A;
    forall p: S.Phrase
      ensures InSomeOrder(p, [A]) <==> Has(A, p)
    {
      SomeArrangement(p, [A]);
      if Has(A, p) {
        assert InArrangement(p, [A], [A]);
      }
      if Ms :| InArrangement(p, [A], Ms) {
        assert |Ms| == |multiset(Ms)| == 1;
        assert Ms[0] in multiset(Ms);
        assert Ms == [A];
      }
    }
    Extensional(AnyOrder([A]), A);
  }

  // ---------------------------------------------------------------- dictionary sets

  /** The alternatives made for the synonyms. */
  lemma DictStep(alt: seq<S.Unit>, text: string, synonyms: seq<string>, unit: S.Unit, R: S.RegexMeaning)
    requires synonyms != [] && synonyms[|synonyms| - 1] != text
    requires S.LangAny(alt, R) == DictPhrases(text, synonyms[..|synonyms| - 1])
    requires S.Lang(unit, R) == Just(SplitWords(synonyms[|synonyms| - 1]))
    ensures S.LangAny(alt + [unit], R) == DictPhrases(text, synonyms)
  {
    var front, last := synonyms[..|synonyms| - 1], synonyms[|synonyms| - 1];
    S.LangAnyAppend(alt, [unit], R);
    LangAnyOne(unit, R);
    UnionHas(S.LangAny(alt, R), S.Lang(unit, R));
    forall p: S.Phrase
      ensures Has(S.LangAny(alt + [unit], R), p) <==> InDictSet(p, text, synonyms)
    {
      assert Has(S.LangAny(alt, R), p) <==> InDictSet(p, text, front);
      assert Has(S.Lang(unit, R), p) <==> p == SplitWords(last);
      assert forall i :: 0 <= i < |front| ==> front[i] == synonyms[i];
      if p == SplitWords(last) {
        assert InDictSet(p, text, synonyms);
      }
    }
    Extensional(S.LangAny(alt + [unit], R), DictPhrases(text, synonyms));
  }

  lemma DictSkip(text: string, synonyms: seq<string>)
    requires synonyms != [] && synonyms[|synonyms| - 1] == text
    ensures DictPhrases(text, synonyms) == DictPhrases(text, synonyms[..|synonyms| - 1])
  {
    var front := synonyms[..|synonyms| - 1];
    assert forall i :: 0 <= i < |front| ==> front[i] == synonyms[i];
    forall p: S.Phrase
      ensures InDictSet(p, text, synonyms) <==> InDictSet(p, text, front)
    {
    }
    Extensional(DictPhrases(text, synonyms), DictPhrases(text, front));
  }

  lemma DictStart(text: string, R: S.RegexMeaning)
    ensures S.LangAny([S.Word(text)], R) == DictPhrases(text, []) == Just([text])
  {
    LangAnyOne(S.Word(text), R);
    Extensional(DictPhrases(text, []), Just([text]));
  }

  lemma DictSkipped(alt: seq<S.Unit>, text: string, synonyms: seq<string>, n: nat)
    requires n < |synonyms| && synonyms[n] == text && DictSoFar(alt, text, synonyms, n)
    ensures DictSoFar(alt, text, synonyms, n + 1)
  {
    DictSkip(text, synonyms[..n + 1]);
    TakeNext(synonyms, n);
    InitOfSnoc(synonyms[..n], synonyms[n]);
    SynonymTreesNext(text, synonyms, n);
    EmptyRight(SynonymTrees(text, synonyms[..n]));
  }

  ghost predicate DictSoFar(alt: seq<S.Unit>, text: string, synonyms: seq<string>, n: nat)
    requires n <= |synonyms|
  {
    && (forall R: S.RegexMeaning :: S.LangAny(alt, R) == DictPhrases(text, synonyms[..n]))
    && S.WeightMax(alt) <= LongestSynonym(text, synonyms)
    && S.AllRegexFree(alt)
    && alt == [S.Word(text)] + SynonymTrees(text, synonyms[..n])
  }

  lemma DictAdd(alt: seq<S.Unit>, text: string, synonyms: seq<string>, n: nat, unit: S.Unit)
    requires n < |synonyms| && synonyms[n] != text && DictSoFar(alt, text, synonyms, n)
    requires unit == WordsTree(SplitWords(synonyms[n]))
    ensures DictSoFar(alt + [unit], text, synonyms, n + 1)
  {
    WordsUnit(SplitWords(synonyms[n]));
    SynonymTreesNext(text, synonyms, n);
    AppendAssoc([S.Word(text)], SynonymTrees(text, synonyms[..n]), [unit]);
    var seen := synonyms[..n + 1];
    assert seen[..n] == synonyms[..n];
    forall R: S.RegexMeaning
      ensures S.LangAny(alt + [unit], R) == DictPhrases(text, seen)
    {
      DictStep(alt, text, seen, unit, R);
    }
    LongestSynonymAt(text, synonyms, n);
    S.WeightMaxAppend(alt, [unit]);
    assert [unit][1..] == [];
  }

  lemma WordsUnit(words: seq<string>)
    requires |words| > 0
    ensures var u := WordsTree(words);
            (forall R: S.RegexMeaning :: S.Lang(u, R) == Just(words)) && S.Weight(u) == |words| && S.RegexFree(u)
  {
    var u := WordsTree(words);
    S.WordUnitsAreWords(words);
    S.WeightOfWords(words);
    forall R: S.RegexMeaning
      ensures S.Lang(u, R) == Just(words)
    {
      S.PhraseOfWords(words, R);
      assert |words| == 1 ==> words == [words[0]];
    }
  }

  /** `dict_to_simple`, for a text that has already been folded. */
  method DictToSimple(text: string, synonyms: seq<string>) returns (r: S.Unit)
    ensures forall R: S.RegexMeaning :: S.Lang(r, R) == DictPhrases(text, synonyms)
    ensures S.Weight(r) <= LongestSynonym(text, synonyms) && S.RegexFree(r)
    ensures r == DictTree(text, synonyms)
  {
    LongestIsPositive(text, synonyms);
    forall R: S.RegexMeaning
      ensures S.LangAny([S.Word(text)], R) == DictPhrases(text, []) == Just([text])
    {
      DictStart(text, R);
    }
    if synonyms == [] {
      return S.Word(text);
    }
    var alt := [S.Word(text)];
    assert alt[1..] == [] && synonyms[..0] == [];
    for i := 0 to |synonyms|
      invariant DictSoFar(alt, text, synonyms, i)
    {
      var syn := synonyms[i];
      if syn == text {
        DictSkipped(alt, text, synonyms, i);
        continue;
      }
      var words := SplitWords(syn);
      if |words| == 1 {
        DictAdd(alt, text, synonyms, i, S.Word(words[0]));
        alt := alt + [S.Word(words[0])];
      } else {
        var concat := [];
        assert words[..0] == [];
        for j := 0 to |words|
          invariant concat == S.WordUnits(words[..j])
        {
          assert words[..j + 1][..j] == words[..j];
          concat := concat + [S.Word(words[j])];
        }
        assert words[..|words|] == words;
        DictAdd(alt, text, synonyms, i, S.Concat(concat));
        alt := alt + [S.Concat(concat)];
      }
    }
    assert synonyms[..|synonyms|] == synonyms;
    return S.Alternation(alt);
  }

  // ---------------------------------------------------------------- order sets

  lemma LangsSnoc(us: seq<S.Unit>, u: S.Unit, after: seq<Language<S.Word>>, R: S.RegexMeaning)
    ensures Langs(us + [u], R) + after == Langs(us, R) + ([S.Lang(u, R)] + after)
  {
  }

  /** Leaving the trivial elements out changes no order set, whatever else is in it. */
  lemma {:induction false} NontrivialOrders(us: seq<S.Unit>, after: seq<Language<S.Word>>, R: S.RegexMeaning)
    requires S.WeightSum(us) < UINT32_MAX
    ensures AnyOrder(Langs(us, R) + after) == AnyOrder(Langs(Nontrivial(us), R) + after)
  {
    if us != [] {
      var front, last := us[..|us| - 1], us[|us| - 1];
      assert us == front + [last];
      S.WeightSumAppend(front, [last]);
      S.WeightOfChild(us, |us| - 1);
      NontrivialSnoc(us);
      LangsSnoc(front, last, after, R);
      if IsEpsilon(last) {
        NontrivialOrders(front, after, R);
        EpsilonLang(last, R);
        AnyOrderDropEpsilon(Langs(front, R), after);
      } else {
        NontrivialOrders(front, [S.Lang(last, R)] + after, R);
        LangsSnoc(Nontrivial(front), last, after, R);
      }
    }
  }

  /** When the shortest lengths already exceed the limit, no order fits. */
  lemma OrdersTooLong(us: seq<S.Unit>, R: S.RegexMeaning, limit: nat)
    requires S.WeightSum(us) < UINT32_MAX && AllRanges(UnitRanges(us)) && Sum(Mins(UnitRanges(us))) > limit
    ensures Upto(AnyOrder(Langs(us, R)), limit) == Nothing()
  {
    var Ls := Langs(us, R);
    var rs := UnitRanges(us);
    UnitRangesCover(us, R);
    forall p: S.Phrase | InSomeOrder(p, Ls)
      ensures |p| > limit
    {
      var idx :| IsOrder(idx, |Ls|) && Has(CatList(Select(Ls, idx)), p);
      CatListLength(Select(rs, idx), Select(Ls, idx), p);
      SelectedSums(rs, idx);
    }
    Extensional(Upto(AnyOrder(Ls), limit), Nothing());
  }

  lemma OrderedLang(elements: seq<S.Unit>, idx: seq<nat>, R: S.RegexMeaning)
    requires InRange(idx, |elements|)
    ensures S.Lang(Ordered(elements, idx), R) == CatList(Select(Langs(elements, R), idx))
  {
    var us := Select(elements, idx);
    assert Langs(us, R) == Select(Langs(elements, R), idx);
    LangAllIsCatList(us, R);
    InlinedConcat(us, R);
  }

  function Weights(us: seq<S.Unit>): (ws: seq<nat>)
    ensures |ws| == |us| && forall i :: 0 <= i < |us| ==> ws[i] == S.Weight(us[i])
  {
    seq(|us|, i requires 0 <= i < |us| => S.Weight(us[i]))
  }

  lemma {:induction false} WeightSumIsSum(us: seq<S.Unit>)
    ensures S.WeightSum(us) == Sum(Weights(us))
  {
    if us != [] {
      WeightSumIsSum(us[1..]);
      assert Weights(us) == [S.Weight(us[0])] + Weights(us[1..]);
      SumCons(S.Weight(us[0]), Weights(us[1..]));
    }
  }

  lemma SelectedWeight(elements: seq<S.Unit>, idx: seq<nat>)
    requires IsOrder(idx, |elements|)
    ensures S.WeightSum(Select(elements, idx)) == S.WeightSum(elements)
  {
    var us := Select(elements, idx);
    WeightSumIsSum(us);
    WeightSumIsSum(elements);
    assert Weights(us) == Select(Weights(elements), idx);
    SelectPermutes(Weights(elements), idx);
    SumPermutes(Weights(us), Weights(elements));
  }

  lemma OrderedWeight(elements: seq<S.Unit>, idx: seq<nat>)
    requires IsOrder(idx, |elements|)
    ensures S.Weight(Ordered(elements, idx)) == S.WeightSum(elements)
  {
    SelectedWeight(elements, idx);
    InlinedConcatWeight(Select(elements, idx));
  }

  lemma OrderedRegexFree(elements: seq<S.Unit>, idx: seq<nat>)
    requires InRange(idx, |elements|) && S.AllRegexFree(elements)
    ensures S.RegexFree(Ordered(elements, idx))
  {
    var us := Select(elements, idx);
    forall u | u in us
      ensures S.RegexFree(u)
    {
      var i :| 0 <= i < |us| && us[i] == u;
      assert elements[idx[i]] in elements;
    }
    InlinedRegexFree(us, S.CONCAT);
  }

  lemma {:induction false} LangAnyHas(us: seq<S.Unit>, R: S.RegexMeaning, p: S.Phrase)
    ensures Has(S.LangAny(us, R), p) <==> exists i :: 0 <= i < |us| && Has(S.Lang(us[i], R), p)
  {
    if us != [] {
      LangAnyHas(us[1..], R, p);
      UnionHas(S.Lang(us[0], R), S.LangAny(us[1..], R));
      assert forall i :: 0 <= i < |us[1..]| ==> us[1..][i] == us[i + 1];
      if i :| 0 < i < |us| && Has(S.Lang(us[i], R), p) {
        assert us[1..][i - 1] == us[i];
      }
    }
  }

  ghost predicate Listed(orders: seq<seq<nat>>, n: nat)
  {
    forall i :: 0 <= i < |orders| ==> IsOrder(orders[i], n)
  }

  ghost predicate EachOrdered(alt: seq<S.Unit>, elements: seq<S.Unit>, orders: seq<seq<nat>>)
  {
    && |alt| == |orders|
    && forall i :: 0 <= i < |alt| ==> IsOrder(orders[i], |elements|) && alt[i] == Ordered(elements, orders[i])
  }

  lemma OrderedSome(alt: seq<S.Unit>, elements: seq<S.Unit>, orders: seq<seq<nat>>, R: S.RegexMeaning, p: S.Phrase)
    requires EachOrdered(alt, elements, orders) && Has(S.LangAny(alt, R), p)
    ensures InSomeOrder(p, Langs(elements, R))
  {
    var i := SomeMember(alt, R, p);
    OrderedIn(elements, orders[i], alt[i], R, p);
  }

  lemma SomeMember(us: seq<S.Unit>, R: S.RegexMeaning, p: S.Phrase) returns (i: nat)
    requires Has(S.LangAny(us, R), p)
    ensures i < |us| && Has(S.Lang(us[i], R), p)
  {
    LangAnyHas(us, R, p);
    i :| 0 <= i < |us| && Has(S.Lang(us[i], R), p);
  }

  lemma OrderedIn(elements: seq<S.Unit>, idx: seq<nat>, u: S.Unit, R: S.RegexMeaning, p: S.Phrase)
    requires IsOrder(idx, |elements|) && u == Ordered(elements, idx) && Has(S.Lang(u, R), p)
    ensures InSomeOrder(p, Langs(elements, R))
  {
    OrderedLang(elements, idx, R);
    InOrder(idx, Langs(elements, R), p);
  }

  lemma InOrder(idx: seq<nat>, Ls: seq<Language<S.Word>>, p: S.Phrase)
    requires IsOrder(idx, |Ls|) && Has(CatList(Select(Ls, idx)), p)
    ensures InSomeOrder(p, Ls)
  {
  }

  lemma SomeOrdered(alt: seq<S.Unit>, elements: seq<S.Unit>, orders: seq<seq<nat>>, idx: seq<nat>, R: S.RegexMeaning, p: S.Phrase)
    requires EachOrdered(alt, elements, orders) && IsOrder(idx, |elements|) && idx in orders
    requires Has(CatList(Select(Langs(elements, R), idx)), p)
    ensures Has(S.LangAny(alt, R), p)
  {
    var i :| 0 <= i < |orders| && orders[i] == idx;
    OrderedLang(elements, idx, R);
    MemberOfAny(alt, i, R, p);
  }

  lemma MemberOfAny(us: seq<S.Unit>, i: nat, R: S.RegexMeaning, p: S.Phrase)
    requires i < |us| && Has(S.Lang(us[i], R), p)
    ensures Has(S.LangAny(us, R), p)
  {
    LangAnyHas(us, R, p);
  }

  lemma OrdersListed(n: nat)
    ensures Listed(Orders(n), n) && forall idx :: IsOrder(idx, n) ==> idx in Orders(n)
  {
    OrdersAreOrders(n);
    var orders := Orders(n);
    forall i | 0 <= i < |orders|
      ensures IsOrder(orders[i], n)
    {
      assert orders[i] in orders;
    }
  }

  /** All orders together. */
  lemma AllOrdersLang(elements: seq<S.Unit>, R: S.RegexMeaning)
    ensures S.LangAny(OrderedAll(elements, Orders(|elements|)), R) == AnyOrder(Langs(elements, R))
  {
    OrdersListed(|elements|);
    EveryOrderLang(OrderedAll(elements, Orders(|elements|)), elements, Orders(|elements|), R);
  }

  lemma EveryOrderLang(alt: seq<S.Unit>, elements: seq<S.Unit>, orders: seq<seq<nat>>, R: S.RegexMeaning)
    requires EachOrdered(alt, elements, orders) && forall idx :: IsOrder(idx, |elements|) ==> idx in orders
    ensures S.LangAny(alt, R) == AnyOrder(Langs(elements, R))
  {
    var Ls := Langs(elements, R);
    forall p: S.Phrase
      ensures Has(S.LangAny(alt, R), p) <==> Has(AnyOrder(Ls), p)
    {
      if Has(S.LangAny(alt, R), p) {
        OrderedSome(alt, elements, orders, R, p);
      }
      if InSomeOrder(p, Ls) {
        var idx :| IsOrder(idx, |Ls|) && Has(CatList(Select(Ls, idx)), p);
        SomeOrdered(alt, elements, orders, idx, R, p);
      }
    }
    Extensional(S.LangAny(alt, R), AnyOrder(Ls));
  }

  lemma {:induction false} OrdersWeight(elements: seq<S.Unit>, orders: seq<seq<nat>>)
    requires Listed(orders, |elements|)
    ensures S.WeightMax(OrderedAll(elements, orders)) <= S.WeightSum(elements)
    ensures S.AllRegexFree(elements) ==> S.AllRegexFree(OrderedAll(elements, orders))
  {
    if orders != [] {
      var front, last := orders[..|orders| - 1], orders[|orders| - 1];
      OrderedWeight(elements, last);
      if S.AllRegexFree(elements) { OrderedRegexFree(elements, last); }
      OrdersWeight(elements, front);
      S.WeightMaxAppend(OrderedAll(elements, front), [Ordered(elements, last)]);
      assert [Ordered(elements, last)][1..] == [];
    }
  }

  method ConcatInOrder(elements: seq<S.Unit>, indexes: seq<nat>) returns (r: S.Unit)
    requires InRange(indexes, |elements|)
    ensures r == Ordered(elements, indexes)
  {
    var permConcat: seq<S.Unit> := [];
    assert Select(elements, indexes[..0]) == [];
    for i := 0 to |indexes|
      invariant permConcat == Inlined(Select(elements, indexes[..i]), S.CONCAT)
    {
      var e := elements[indexes[i]];
      InlinedSnoc(Select(elements, indexes[..i]), e, S.CONCAT);
      assert Select(elements, indexes[..i + 1]) == Select(elements, indexes[..i]) + [e];
      permConcat := AddTo(permConcat, e, S.CONCAT);
    }
    assert indexes[..|indexes|] == indexes;
    return S.Concat(permConcat);
  }

  /** The general case: one alternative for every permutation of the elements, through std::next_permutation. */
  method AllOrders(elements: seq<S.Unit>) returns (alt: seq<S.Unit>)
    ensures alt == OrderedAll(elements, Orders(|elements|))
  {
    var n := |elements|;
    var indexes: seq<nat> := [];
    for i := 0 to n
      invariant indexes == Indexes(i)
    {
      indexes := indexes + [i];
    }
    alt := [];
    ghost var visited: seq<seq<nat>> := [];
    var more := true;
    StartVisiting(indexes);
    while more
      invariant Listed(visited, n) && alt == OrderedAll(elements, visited)
      invariant more ==> IsOrder(indexes, n) && Visiting(visited + [indexes], indexes)
      invariant !more ==> visited == Orders(n)
      decreases more, Pow(n, n) - Number(indexes, n)
    {
      OrderNumber(indexes, n);
      var permConcat := ConcatInOrder(elements, indexes);
      OrderedSnoc(elements, visited, indexes);
      alt := alt + [permConcat];
      visited := visited + [indexes];
      more, indexes := NextOrder(indexes, n, visited);
    }
  }

  /** The orders up to the current one, each once and in lexicographic order. */
  ghost predicate Visiting(visited: seq<seq<nat>>, cur: seq<nat>)
  {
    VisitedUpTo(visited, cur) && InLexOrder(visited)
  }

  lemma OrderedSnoc(elements: seq<S.Unit>, visited: seq<seq<nat>>, idx: seq<nat>)
    requires Listed(visited, |elements|) && IsOrder(idx, |elements|)
    ensures Listed(visited + [idx], |elements|)
    ensures OrderedAll(elements, visited + [idx]) == OrderedAll(elements, visited) + [Ordered(elements, idx)]
  {
    InitOfSnoc(visited, idx);
  }

  lemma OrderNumber(idx: seq<nat>, n: nat)
    requires IsOrder(idx, n)
    ensures Number(idx, n) < Pow(n, n)
  {
    PermutesLength(idx, Indexes(n));
    NumberBound(idx, n);
  }

  method NextOrder(indexes: seq<nat>, n: nat, ghost visited: seq<seq<nat>>) returns (more: bool, next: seq<nat>)
    requires IsOrder(indexes, n) && Visiting(visited, indexes)
    ensures more ==> IsOrder(next, n) && Visiting(visited + [next], next)
    ensures more ==> Number(indexes, n) < Number(next, n) < Pow(n, n)
    ensures !more ==> visited == Orders(n)
  {
    more, next := NextPermutation(indexes);
    PermutationIsOrder(next, n);
    OrderNumber(next, n);
    if more {
      KeepVisiting(visited, indexes, next);
      VisitNext(visited, indexes, next);
      LexNumber(indexes, next, n);
    } else {
      DoneVisiting(visited, indexes);
      RunIsArranged(visited, Indexes(n));
    }
  }

  /** What an order set means in terms of its simplified, non-trivial elements. */
  lemma OrderMeaning(us: seq<S.Unit>, cs: seq<Query>, config: Config, limit: nat, R: S.RegexMeaning)
    requires AllSimplify(us, cs, config, limit) && S.WeightSum(us) < UINT32_MAX
    ensures Upto(AnyOrder(QueryLangs(cs, config, R)), limit) == Upto(AnyOrder(Langs(us, R)), limit)
    ensures AnyOrder(Langs(us, R)) == AnyOrder(Langs(Nontrivial(us), R))
  {
    forall i | 0 <= i < |us|
      ensures Upto(QueryLangs(cs, config, R)[i], limit) == Upto(Langs(us, R)[i], limit)
    {
      QueryLangsAt(cs, config, R, i);
      assert Simplifies(us[i], cs[i], config, limit);
    }
    AnyOrderUpto(QueryLangs(cs, config, R), Langs(us, R), limit);
    NontrivialOrders(us, [], R);
    assert Langs(us, R) + [] == Langs(us, R);
    assert Langs(Nontrivial(us), R) + [] == Langs(Nontrivial(us), R);
  }

  lemma DeadOrderSet(cs: seq<Query>, i: nat, u: S.Unit, config: Config, limit: nat)
    requires i < |cs| && Simplifies(u, cs[i], config, limit)
    requires S.Weight(u) < UINT32_MAX && S.RangeOf(u).NoLength?
    ensures Simplifies(S.Alternation([]), OrderSet(cs), config, limit)
  {
    forall R: S.RegexMeaning
      ensures Upto(S.Lang(S.Alternation([]), R), limit) == Upto(QueryLang(OrderSet(cs), config, R), limit)
    {
      QueryLangsAt(cs, config, R, i);
      S.RangeCovers(u, R);
      Extensional(Upto(S.Lang(u, R), limit), Nothing());
      DeadElement(QueryLangs(cs, config, R), i, limit);
      Extensional(Upto(S.Lang(S.Alternation([]), R), limit), Nothing());
    }
  }

  lemma AllAgree(us: seq<S.Unit>, cs: seq<Query>, config: Config, limit: nat)
    requires AllSimplify(us, cs, config, limit)
    ensures S.WeightSum(us) <= QueryWeightSum(cs, config) && S.WeightMax(us) <= QueryWeightMax(cs, config)
    ensures !config.allowRegex ==> S.AllRegexFree(us)
  {
    PartsAgree(us, cs, config, limit, t => iset{});
    AlternativesAgree(us, cs, config, limit, t => iset{});
    forall c | c in us
      ensures !config.allowRegex ==> S.RegexFree(c)
    {
      var i :| 0 <= i < |us| && us[i] == c;
      assert Simplifies(us[i], cs[i], config, limit);
    }
  }

  lemma TooLongOrderSet(us: seq<S.Unit>, cs: seq<Query>, config: Config, limit: nat)
    requires AllSimplify(us, cs, config, limit) && QueryWeightSum(cs, config) < UINT32_MAX
    requires AllRanges(UnitRanges(us)) && Sum(Mins(UnitRanges(us))) > limit
    ensures Simplifies(S.Alternation([]), OrderSet(cs), config, limit)
  {
    AllAgree(us, cs, config, limit);
    forall R: S.RegexMeaning
      ensures Upto(S.Lang(S.Alternation([]), R), limit) == Upto(QueryLang(OrderSet(cs), config, R), limit)
    {
      OrderMeaning(us, cs, config, limit, R);
      OrdersTooLong(us, R, limit);
      Extensional(Upto(S.Lang(S.Alternation([]), R), limit), Nothing());
    }
  }

  /** A unit that means any order of the elements simplifies the order set. */
  lemma OrderSetBy(r: S.Unit, us: seq<S.Unit>, cs: seq<Query>, config: Config, limit: nat)
    requires AllSimplify(us, cs, config, limit) && QueryWeightSum(cs, config) < UINT32_MAX
    requires forall R: S.RegexMeaning :: S.Lang(r, R) == AnyOrder(Langs(Nontrivial(us), R))
    requires S.Weight(r) <= S.WeightSum(Nontrivial(us)) && (S.AllRegexFree(Nontrivial(us)) ==> S.RegexFree(r))
    ensures Simplifies(r, OrderSet(cs), config, limit)
  {
    AllAgree(us, cs, config, limit);
    NontrivialWeight(us);
    forall R: S.RegexMeaning
      ensures Upto(S.Lang(r, R), limit) == Upto(QueryLang(OrderSet(cs), config, R), limit)
    {
      OrderLangBy(r, us, cs, config, limit, R);
    }
  }

  lemma OrderLangBy(r: S.Unit, us: seq<S.Unit>, cs: seq<Query>, config: Config, limit: nat, R: S.RegexMeaning)
    requires AllSimplify(us, cs, config, limit) && QueryWeightSum(cs, config) < UINT32_MAX
    requires S.Lang(r, R) == AnyOrder(Langs(Nontrivial(us), R))
    ensures Upto(S.Lang(r, R), limit) == Upto(QueryLang(OrderSet(cs), config, R), limit)
  {
    AllAgree(us, cs, config, limit);
    OrderMeaning(us, cs, config, limit, R);
    OrderSetLang(cs, config, R);
    AgreeThrough(S.Lang(r, R), AnyOrder(Langs(us, R)), AnyOrder(QueryLangs(cs, config, R)), limit);
  }

  lemma OrderSetLang(cs: seq<Query>, config: Config, R: S.RegexMeaning)
    ensures QueryLang(OrderSet(cs), config, R) == AnyOrder(QueryLangs(cs, config, R))
  {
  }

  lemma AgreeThrough(A: Language<S.Word>, B: Language<S.Word>, C: Language<S.Word>, limit: nat)
    requires A == B && Upto(C, limit) == Upto(B, limit)
    ensures Upto(A, limit) == Upto(C, limit)
  {
  }

  lemma FewElements(elements: seq<S.Unit>, R: S.RegexMeaning)
    ensures |elements| == 0 ==> S.Lang(S.Concat([]), R) == AnyOrder(Langs(elements, R))
    ensures |elements| == 1 ==> S.Lang(elements[0], R) == AnyOrder(Langs(elements, R)) && S.Weight(elements[0]) == S.WeightSum(elements)
  {
    if |elements| == 0 {
      AnyOrderOfNone();
      assert Langs(elements, R) == [];
    } else if |elements| == 1 {
      AnyOrderOfOne(S.Lang(elements[0], R));
      assert Langs(elements, R) == [S.Lang(elements[0], R)];
      assert elements[1..] == [];
    }
  }

  /** The elements in any order. */
  lemma AnyOrderTreeMeans(elements: seq<S.Unit>)
    ensures forall R: S.RegexMeaning :: S.Lang(AnyOrderTree(elements), R) == AnyOrder(Langs(elements, R))
    ensures S.Weight(AnyOrderTree(elements)) <= S.WeightSum(elements)
    ensures S.AllRegexFree(elements) ==> S.RegexFree(AnyOrderTree(elements))
  {
    forall R: S.RegexMeaning
      ensures S.Lang(AnyOrderTree(elements), R) == AnyOrder(Langs(elements, R))
    {
      FewElements(elements, R);
      AllOrdersLang(elements, R);
    }
    if |elements| >= 2 {
      OrdersListed(|elements|);
      OrdersWeight(elements, Orders(|elements|));
    } else {
      FewElements(elements, t => iset{});
    }
  }

  /** The end of `order_to_simple`, once its elements are known. */
  method OrderElements(elements: seq<S.Unit>, options: Options) returns (r: Result<S.Unit>)
    ensures r == if |elements| < 7 && Fact(|elements|) <= options.maxNormQueries then Ok(AnyOrderTree(elements))
                 else InvalidQuery(OrderSetTooLarge)
  {
    if |elements| >= 7 {
      return InvalidQuery(OrderSetTooLarge);
    }
    var count := Factorial(|elements|, TWO_64);
    SmallFactorials(|elements|);
    if count > options.maxNormQueries {
      return InvalidQuery(OrderSetTooLarge);
    }
    if |elements| == 0 {
      return Ok(S.Concat([]));
    }
    if |elements| == 1 {
      return Ok(elements[0]);
    }
    var alt := AllOrders(elements);
    return Ok(S.Alternation(alt));
  }

  /** A result as the verdict that describes it. */
  ghost function Outcome(r: Result<S.Unit>): Verdict
  {
    if r.Ok? then Accepted(S.RangeOf(r.value)) else Rejected
  }

  /** The tree of the query, which means the query up to the maximum length, unless the verdict is to reject it; the
      verdict depends on lengths only and also tells the range of the tree. */
  ghost predicate Simplified(r: Result<S.Unit>, q: Query, config: Config, options: Options)
  {
    && (r.Ok? ==> r.value == TreeOf(q, config, options) && Simplifies(r.value, q, config, options.maxLength))
    && (r.InvalidQuery? ==> r.reason == OrderSetTooLarge)
    && Outcome(r) == VerdictOf(q, config, options)
  }

  lemma OrderSetRange(r: S.Unit, us: seq<S.Unit>)
    requires S.WeightSum(us) < UINT32_MAX && S.Weight(r) <= S.WeightSum(Nontrivial(us))
    requires S.Lang(r, SomeWord()) == AnyOrder(Langs(Nontrivial(us), SomeWord()))
    ensures S.RangeOf(r) == S.RangeOfAll(us)
  {
    NontrivialWeight(us);
    OrderedRange(r, Nontrivial(us));
    NontrivialRange(us);
  }

  /** What the loop of `order_to_simple` makes of one more element: it may already settle the result. */
  method AddElement(elements: seq<S.Unit>, elementsMinLength: uint32, cs: seq<Query>, i: nat, config: Config, options: Options,
                    ghost us: seq<S.Unit>)
    returns (early: O.Option<Result<S.Unit>>, elements': seq<S.Unit>, elementsMinLength': uint32, ghost us': seq<S.Unit>)
    requires ElementsSoFar(us, elements, elementsMinLength, cs, i, config, options) && i < |cs|
    requires QueryWeightSum(cs, config) < UINT32_MAX
    ensures early.Some? ==> Simplified(early.value, OrderSet(cs), config, options)
    ensures early.None? ==> ElementsSoFar(us', elements', elementsMinLength', cs, i + 1, config, options)
    decreases cs, 1
  {
    elements', elementsMinLength', us' := elements, elementsMinLength, us;
    QueryWeightOfChild(cs, config, i);
    var child := UnitToSimple(cs[i], config, options);
    if child.InvalidQuery? {
      RejectedElement(us, elements, elementsMinLength, cs, i, config, options);
      early := O.Some(child);
      return;
    }
    var range := S.LengthRangeOf(child.value);
    if range.IsEmpty() {
      DeadElementOf(us, elements, elementsMinLength, cs, i, child.value, config, options);
      early := O.Some(Ok(S.Alternation([])));
      return;
    }
    ElementsNext(us, elements, elementsMinLength, cs, i, child.value, config, options);
    us' := us + [child.value];
    elementsMinLength' := elementsMinLength + range.min;
    if range.max != 0 {
      elements' := elements + [child.value];
    }
    early := O.None;
  }

  method OrderSetElements(cs: seq<Query>, config: Config, options: Options)
    returns (early: O.Option<Result<S.Unit>>, elements: seq<S.Unit>, elementsMinLength: uint32, ghost us: seq<S.Unit>)
    requires QueryWeightSum(cs, config) < UINT32_MAX
    ensures early.Some? ==> Simplified(early.value, OrderSet(cs), config, options)
    ensures early.None? ==> ElementsSoFar(us, elements, elementsMinLength, cs, |cs|, config, options)
    decreases cs, 2
  {
    early, elements, elementsMinLength, us := O.None, [], 0, [];
    for i := 0 to |cs|
      invariant early.None? && ElementsSoFar(us, elements, elementsMinLength, cs, i, config, options)
    {
      early, elements, elementsMinLength, us := AddElement(elements, elementsMinLength, cs, i, config, options, us);
      if early.Some? {
        return;
      }
    }
  }

  lemma RejectedElement(us: seq<S.Unit>, elements: seq<S.Unit>, min: nat, cs: seq<Query>, i: nat, config: Config, options: Options)
    requires ElementsSoFar(us, elements, min, cs, i, config, options) && i < |cs|
    requires VerdictOf(cs[i], config, options).Rejected?
    ensures Simplified(InvalidQuery(OrderSetTooLarge), OrderSet(cs), config, options)
  {
    VerdictsAt(cs, config, options, i);
    ObstacleIsFirst(Verdicts(cs, config, options), us, options);
  }

  lemma DeadElementOf(us: seq<S.Unit>, elements: seq<S.Unit>, min: nat, cs: seq<Query>, i: nat, u: S.Unit, config: Config,
                      options: Options)
    requires ElementsSoFar(us, elements, min, cs, i, config, options) && i < |cs| && QueryWeightSum(cs, config) < UINT32_MAX
    requires Simplified(Ok(u), cs[i], config, options) && S.RangeOf(u).NoLength?
    ensures Simplified(Ok(S.Alternation([])), OrderSet(cs), config, options)
  {
    VerdictsAt(cs, config, options, i);
    ObstacleIsFirst(Verdicts(cs, config, options), us, options);
    QueryWeightOfChild(cs, config, i);
    DeadOrderSet(cs, i, u, config, options.maxLength);
    DeadOrderTree(cs, i, config, options);
  }

  /** `order_to_simple`. */
  method OrderToSimple(cs: seq<Query>, config: Config, options: Options) returns (r: Result<S.Unit>)
    requires QueryWeightSum(cs, config) < UINT32_MAX
    ensures Simplified(r, OrderSet(cs), config, options)
    decreases cs, 3
  {
    var early, elements, elementsMinLength;
    ghost var us;
    early, elements, elementsMinLength, us := OrderSetElements(cs, config, options);
    if early.Some? {
      return early.value;
    }
    if elementsMinLength > options.maxLength {
      LongElements(us, elements, elementsMinLength, cs, config, options);
      return Ok(S.Alternation([]));
    }
    r := OrderElements(elements, options);
    ElementsInAnyOrder(us, elements, elementsMinLength, cs, config, options);
  }

  lemma LongElements(us: seq<S.Unit>, elements: seq<S.Unit>, min: nat, cs: seq<Query>, config: Config, options: Options)
    requires ElementsSoFar(us, elements, min, cs, |cs|, config, options) && QueryWeightSum(cs, config) < UINT32_MAX
    requires min > options.maxLength
    ensures Simplified(Ok(S.Alternation([])), OrderSet(cs), config, options)
  {
    assert cs[..|cs|] == cs;
    NoObstacle(Verdicts(cs, config, options), us, options);
    TooLongOrderSet(us, cs, config, options.maxLength);
    LastTree(us, cs, config, options);
  }

  /** The outcome of the two checks and of the expansion is that of the order set. */
  lemma ElementsInAnyOrder(us: seq<S.Unit>, elements: seq<S.Unit>, min: nat, cs: seq<Query>, config: Config, options: Options)
    requires ElementsSoFar(us, elements, min, cs, |cs|, config, options) && QueryWeightSum(cs, config) < UINT32_MAX
    requires min <= options.maxLength
    ensures Simplified(if |elements| < 7 && Fact(|elements|) <= options.maxNormQueries then Ok(AnyOrderTree(elements))
                       else InvalidQuery(OrderSetTooLarge), OrderSet(cs), config, options)
  {
    assert cs[..|cs|] == cs;
    NoObstacle(Verdicts(cs, config, options), us, options);
    if |elements| < 7 && Fact(|elements|) <= options.maxNormQueries {
      LastTree(us, cs, config, options);
      AnyOrderTreeMeans(elements);
      OrderSetBy(AnyOrderTree(elements), us, cs, config, options.maxLength);
      AllAgree(us, cs, config, options.maxLength);
      OrderSetRange(AnyOrderTree(elements), us);
    }
  }

  /** The units of the first i elements, those among them that are more than the empty phrase, and their minimum length. */
  ghost predicate ElementsSoFar(us: seq<S.Unit>, elements: seq<S.Unit>, min: nat, cs: seq<Query>, i: nat, config: Config,
                                options: Options)
  {
    && i <= |cs| && AllSimplify(us, cs[..i], config, options.maxLength)
    && AgreeWith(Verdicts(cs, config, options), us) && FirstTrees(us, cs, config, options)
    && elements == Nontrivial(us)
    && AllRanges(UnitRanges(us)) && min == Sum(Mins(UnitRanges(us)))
  }

  lemma ElementsNext(us: seq<S.Unit>, elements: seq<S.Unit>, min: nat, cs: seq<Query>, i: nat, u: S.Unit, config: Config,
                     options: Options)
    requires ElementsSoFar(us, elements, min, cs, i, config, options) && i < |cs| && QueryWeightSum(cs, config) < UINT32_MAX
    requires Simplified(Ok(u), cs[i], config, options) && S.RangeOf(u).Range?
    ensures min + S.RangeOf(u).min < UINT32_MAX
    ensures ElementsSoFar(us + [u], if S.RangeOf(u).max == 0 then elements else elements + [u], min + S.RangeOf(u).min,
                          cs, i + 1, config, options)
  {
    UnitRangesSnoc(us, u);
    InitOfSnoc(us, u);
    EmptyRight(elements);
    SimplifySnoc(us, cs, i, u, config, options.maxLength);
    MinsStayInRange(us + [u], cs, config, options.maxLength);
    VerdictsAt(cs, config, options, i);
    AgreeSnoc(Verdicts(cs, config, options), us, u);
    NextTree(us, cs, config, options);
  }

  lemma SimplifySnoc(us: seq<S.Unit>, cs: seq<Query>, i: nat, u: S.Unit, config: Config, limit: nat)
    requires i < |cs| && AllSimplify(us, cs[..i], config, limit) && Simplifies(u, cs[i], config, limit)
    ensures AllSimplify(us + [u], cs[..i + 1], config, limit)
  {
    var all := us + [u];
    forall j | 0 <= j < |all|
      ensures Simplifies(all[j], cs[..i + 1][j], config, limit)
    {
      if j < i { assert cs[..i][j] == cs[j]; }
    }
  }

  /** The 32-bit sum of the minimum lengths does not wrap. */
  lemma MinsStayInRange(us: seq<S.Unit>, cs: seq<Query>, config: Config, limit: nat)
    requires |us| <= |cs| && AllSimplify(us, cs[..|us|], config, limit)
    requires AllRanges(UnitRanges(us)) && QueryWeightSum(cs, config) < UINT32_MAX
    ensures Sum(Mins(UnitRanges(us))) < UINT32_MAX
  {
    var part := cs[..|us|];
    AllAgree(us, part, config, limit);
    QueryWeightPrefix(cs, config, |us|);
    UnitRangesWithin(us);
  }

  lemma {:induction false} QueryWeightPrefix(cs: seq<Query>, config: Config, n: nat)
    requires n <= |cs|
    ensures QueryWeightSum(cs[..n], config) <= QueryWeightSum(cs, config)
  {
    if n > 0 {
      QueryWeightPrefix(cs[1..], config, n - 1);
      assert cs[..n][1..] == cs[1..][..n - 1];
    }
  }

  // ---------------------------------------------------------------- the other sets, and the whole

  /** The simplified children, inlined where they are of the given kind. */
  method ChildrenToSimple(start: seq<S.Unit>, cs: seq<Query>, tag: S.Tag, config: Config, options: Options)
    returns (r: Result<seq<S.Unit>>, ghost us: seq<S.Unit>)
    requires tag == S.CONCAT || tag == S.ALTERNATION
    requires QueryWeightMax(cs, config) < UINT32_MAX
    ensures r.Ok? ==> AllSimplify(us, cs, config, options.maxLength) && r.value == start + Inlined(us, tag)
    ensures r.Ok? ==> AgreeWith(Verdicts(cs, config, options), us) && us == TreesOf(cs, config, options)
    ensures r.InvalidQuery? ==> r.reason == OrderSetTooLarge && Rejected in Verdicts(cs, config, options)
    decreases cs, 0
  {
    var children := start;
    us := [];
    for i := 0 to |cs|
      invariant AgreeWith(Verdicts(cs, config, options), us) && FirstTrees(us, cs, config, options)
      invariant |us| == i && forall j :: 0 <= j < i ==> Simplifies(us[j], cs[j], config, options.maxLength)
      invariant children == start + Inlined(us, tag)
    {
      QueryWeightOfChild(cs, config, i);
      VerdictsAt(cs, config, options, i);
      var child := UnitToSimple(cs[i], config, options);
      if child.InvalidQuery? {
        assert Verdicts(cs, config, options)[i] == Rejected;
        return child.To(), us;
      }
      AgreeSnoc(Verdicts(cs, config, options), us, child.value);
      InlinedSnoc(us, child.value, tag);
      AddToAppend(start, Inlined(us, tag), child.value, tag);
      NextTree(us, cs, config, options);
      children := AddTo(children, child.value, tag);
      us := us + [child.value];
    }
    LastTree(us, cs, config, options);
    return Ok(children), us;
  }

  lemma AlternationBy(children: seq<S.Unit>, us: seq<S.Unit>, q: Query, config: Config, limit: nat)
    requires q.Alternation? || (q.OptionSet? && |q.children| > 1)
    requires AllSimplify(us, q.children, config, limit) && children == Inlined(us, S.ALTERNATION)
    ensures Simplifies(S.Alternation(children), q, config, limit)
  {
    AllAgree(us, q.children, config, limit);
    forall R: S.RegexMeaning
      ensures Upto(S.LangAny(children, R), limit) == Upto(UnionList(QueryLangs(q.children, config, R)), limit)
    {
      InlinedAlternation(us, R);
      AlternativesAgree(us, q.children, config, limit, R);
    }
    InlinedAlternation(us, t => iset{});
    assert S.Weight(S.Alternation(children)) == S.WeightMax(children) <= QueryWeightMax(q.children, config) == QueryWeight(q, config);
    if !config.allowRegex {
      InlinedRegexFree(us, S.ALTERNATION);
      assert S.RegexFree(S.Alternation(children));
    }
  }

  lemma ConcatBy(children: seq<S.Unit>, us: seq<S.Unit>, cs: seq<Query>, config: Config, limit: nat)
    requires AllSimplify(us, cs, config, limit) && children == Inlined(us, S.CONCAT)
    ensures Simplifies(S.Concat(children), Concat(cs), config, limit)
  {
    AllAgree(us, cs, config, limit);
    forall R: S.RegexMeaning
      ensures Upto(S.LangAll(children, R), limit) == Upto(CatList(QueryLangs(cs, config, R)), limit)
    {
      InlinedConcat(us, R);
      PartsAgree(us, cs, config, limit, R);
    }
    InlinedConcatWeight(us);
    assert S.Weight(S.Concat(children)) == S.WeightSum(children) <= QueryWeightSum(cs, config) == QueryWeight(Concat(cs), config);
    if !config.allowRegex {
      InlinedRegexFree(us, S.CONCAT);
      assert S.RegexFree(S.Concat(children));
    }
  }

  lemma OptionLang(inner: seq<S.Unit>, us: seq<S.Unit>, cs: seq<Query>, config: Config, limit: nat, R: S.RegexMeaning)
    requires |cs| <= 1 && AllSimplify(us, cs, config, limit) && S.LangAny(inner, R) == S.LangAny(us, R)
    ensures Upto(S.LangAny([S.Concat([])] + inner, R), limit) == Upto(QueryLang(OptionSet(cs), config, R), limit)
  {
    S.LangAnyAppend([S.Concat([])], inner, R);
    LangAnyOne(S.Concat([]), R);
    AlternativesAgree(us, cs, config, limit, R);
    UptoUnion(Epsilon(), S.LangAny(us, R), limit);
    UptoUnion(Epsilon(), UnionList(QueryLangs(cs, config, R)), limit);
  }

  /** An option set of at most one element also accepts the empty phrase. */
  lemma OptionBy(us: seq<S.Unit>, cs: seq<Query>, config: Config, limit: nat)
    requires |cs| <= 1 && AllSimplify(us, cs, config, limit)
    ensures Simplifies(S.Alternation([S.Concat([])] + Inlined(us, S.ALTERNATION)), OptionSet(cs), config, limit)
  {
    AllAgree(us, cs, config, limit);
    var inner := Inlined(us, S.ALTERNATION);
    assert [S.Concat([])][1..] == [];
    S.WeightMaxAppend([S.Concat([])], inner);
    forall R: S.RegexMeaning
      ensures Upto(S.LangAny([S.Concat([])] + inner, R), limit) == Upto(QueryLang(OptionSet(cs), config, R), limit)
    {
      InlinedAlternation(us, R);
      OptionLang(inner, us, cs, config, limit, R);
    }
    InlinedAlternation(us, t => iset{});
    if !config.allowRegex {
      InlinedRegexFree(us, S.ALTERNATION);
    }
  }

  lemma OneOrMore()
    ensures Cat(Singles<S.Word>(), All()) == NonEmpty()
  {
    forall p: S.Phrase
      ensures Has(Cat(Singles<S.Word>(), All()), p) <==> |p| >= 1
    {
      if |p| >= 1 {
        CatIntro(p[..1], p[1..], Singles(), All());
        assert p[..1] + p[1..] == p;
      }
    }
    Extensional(Cat(Singles<S.Word>(), All()), NonEmpty());
  }

  lemma PlusLang(cs: seq<S.Unit>, R: S.RegexMeaning)
    requires cs == [S.QMark] + [S.Star]
    ensures S.LangAll(cs, R) == NonEmpty()
  {
    S.LangAllAppend([S.QMark], [S.Star], R);
    S.LangAllOne(S.QMark, R);
    S.LangAllOne(S.Star, R);
    OneOrMore();
  }

  lemma PlusBy(config: Config, limit: nat)
    ensures Simplifies(S.Concat([S.QMark, S.Star]), Plus, config, limit)
  {
    var cs := [S.QMark, S.Star];
    assert cs == [S.QMark] + [S.Star];
    S.WeightSumAppend([S.QMark], [S.Star]);
    assert [S.QMark][1..] == [] && [S.Star][1..] == [];
    forall R: S.RegexMeaning
      ensures S.Lang(S.Concat(cs), R) == NonEmpty()
    {
      PlusLang(cs, R);
    }
  }

  lemma AlternationRange(children: seq<S.Unit>, us: seq<S.Unit>, cs: seq<Query>, config: Config, options: Options)
    requires AllSimplify(us, cs, config, options.maxLength) && QueryWeightMax(cs, config) < UINT32_MAX
    requires AgreeWith(Verdicts(cs, config, options), us) && children == Inlined(us, S.ALTERNATION)
    ensures Rejected !in Verdicts(cs, config, options)
    ensures S.RangeOfAny(children) == UniteRanges(RangesOf(Verdicts(cs, config, options)))
  {
    AllAgree(us, cs, config, options.maxLength);
    AllAccepted(Verdicts(cs, config, options), us);
    InlinedAlternationRange(us);
  }

  lemma ConcatRange(children: seq<S.Unit>, us: seq<S.Unit>, cs: seq<Query>, config: Config, options: Options)
    requires AllSimplify(us, cs, config, options.maxLength) && QueryWeightSum(cs, config) < UINT32_MAX
    requires AgreeWith(Verdicts(cs, config, options), us) && children == Inlined(us, S.CONCAT)
    ensures Rejected !in Verdicts(cs, config, options)
    ensures S.RangeOfAll(children) == CatRanges(RangesOf(Verdicts(cs, config, options)))
  {
    AllAgree(us, cs, config, options.maxLength);
    AllAccepted(Verdicts(cs, config, options), us);
    InlinedConcatRange(us);
  }

  lemma OptionalRange(inner: seq<S.Unit>)
    ensures S.RangeOfAny([S.Concat([])] + inner) == UniteRange(Range(0, 0), S.RangeOfAny(inner))
  {
    assert ([S.Concat([])] + inner)[1..] == inner;
  }

  lemma OptionSimplified(us: seq<S.Unit>, cs: seq<Query>, config: Config, options: Options)
    requires AllSimplify(us, cs, config, options.maxLength) && QueryWeightMax(cs, config) < UINT32_MAX
    requires AgreeWith(Verdicts(cs, config, options), us) && us == TreesOf(cs, config, options)
    ensures var option := if |cs| <= 1 then [S.Concat([])] else [];
            Simplified(Ok(S.Alternation(option + Inlined(us, S.ALTERNATION))), OptionSet(cs), config, options)
  {
    var inner := Inlined(us, S.ALTERNATION);
    AlternationRange(inner, us, cs, config, options);
    if |cs| <= 1 {
      OptionalRange(inner);
      OptionBy(us, cs, config, options.maxLength);
    } else {
      EmptyLeft(inner);
      AlternationBy(inner, us, OptionSet(cs), config, options.maxLength);
    }
  }

  /** `option_to_simple`. */
  method OptionToSimple(cs: seq<Query>, config: Config, options: Options) returns (r: Result<S.Unit>)
    requires QueryWeightMax(cs, config) < UINT32_MAX
    ensures Simplified(r, OptionSet(cs), config, options)
    decreases cs, 1
  {
    var option := if |cs| <= 1 then [S.Concat([])] else [];
    var children;
    ghost var us;
    children, us := ChildrenToSimple(option, cs, S.ALTERNATION, config, options);
    if children.InvalidQuery? {
      return children.To();
    }
    OptionSimplified(us, cs, config, options);
    return Ok(S.Alternation(children.value));
  }

  /** `alt_to_simple`. */
  method AltToSimple(cs: seq<Query>, config: Config, options: Options) returns (r: Result<S.Unit>)
    requires QueryWeightMax(cs, config) < UINT32_MAX
    ensures Simplified(r, Alternation(cs), config, options)
    decreases cs, 1
  {
    var children;
    ghost var us;
    children, us := ChildrenToSimple([], cs, S.ALTERNATION, config, options);
    if children.InvalidQuery? {
      return children.To();
    }
    EmptyLeft(Inlined(us, S.ALTERNATION));
    AlternationRange(children.value, us, cs, config, options);
    AlternationBy(children.value, us, Alternation(cs), config, options.maxLength);
    return Ok(S.Alternation(children.value));
  }

  /** `concat_to_simple`. */
  method ConcatToSimple(cs: seq<Query>, config: Config, options: Options) returns (r: Result<S.Unit>)
    requires QueryWeightSum(cs, config) < UINT32_MAX
    ensures Simplified(r, Concat(cs), config, options)
    decreases cs, 1
  {
    QueryWeightMaxSum(cs, config);
    var children;
    ghost var us;
    children, us := ChildrenToSimple([], cs, S.CONCAT, config, options);
    if children.InvalidQuery? {
      return children.To();
    }
    EmptyLeft(Inlined(us, S.CONCAT));
    ConcatRange(children.value, us, cs, config, options);
    ConcatBy(children.value, us, cs, config, options.maxLength);
    return Ok(S.Concat(children.value));
  }

  /** `unit_to_simple`. */
  method UnitToSimple(q: Query, config: Config, options: Options) returns (r: Result<S.Unit>)
    requires QueryWeight(q, config) < UINT32_MAX
    ensures Simplified(r, q, config, options)
    decreases q, 4
  {
    match q
    case OptionSet(cs) =>
      r := OptionToSimple(cs, config, options);
    case OrderSet(cs) =>
      r := OrderToSimple(cs, config, options);
    case Alternation(cs) =>
      r := AltToSimple(cs, config, options);
    case Concat(cs) =>
      r := ConcatToSimple(cs, config, options);
    case _ =>
      var unit := LeafToSimple(q, config, options);
      r := Ok(unit);
      LeafVerdict(q, config, options);
  }

  /** The kinds without children, which are never rejected. */
  method LeafToSimple(q: Query, config: Config, ghost options: Options) returns (r: S.Unit)
    requires QueryWeight(q, config) < UINT32_MAX && Leaf(q)
    ensures Simplifies(r, q, config, options.maxLength) && S.RangeOf(r) == LeafRange(q, config)
    ensures r == TreeOf(q, config, options)
  {
    ghost var limit := options.maxLength;
    match q
    case Word(t) =>
      WordBy(t, config, limit);
      return S.Word(config.fold(t));
    case QMark =>
      WildcardsBy(config, limit);
      return S.QMark;
    case Star =>
      WildcardsBy(config, limit);
      return S.Star;
    case Plus =>
      PlusBy(config, limit);
      PlusRange([S.QMark, S.Star]);
      return S.Concat([S.QMark, S.Star]);
    case Regex(t) =>
      RegexBy(t, config, limit);
      if config.allowRegex {
        return S.Regex(config.fold(t));
      } else {
        return S.Alternation([]);
      }
    case DictSet(t) =>
      var text := config.fold(t);
      r := DictToSimple(text, Synonyms(text, config.dictionary));
      DictTreeRange(r, text, Synonyms(text, config.dictionary));
      DictBy(r, t, config, limit);
  }

  lemma WordBy(t: string, config: Config, limit: nat)
    ensures Simplifies(S.Word(config.fold(t)), Word(t), config, limit)
  {
  }

  lemma WildcardsBy(config: Config, limit: nat)
    ensures Simplifies(S.QMark, QMark, config, limit) && Simplifies(S.Star, Star, config, limit)
  {
  }

  lemma PlusRange(cs: seq<S.Unit>)
    requires |cs| == 2 && cs[0] == S.QMark && cs[1] == S.Star
    ensures S.RangeOf(S.Concat(cs)) == Range(1, UINT32_MAX)
  {
    LastRange(cs[1..]);
    assert S.RangeOfAll(cs) == CatRange(S.RangeOf(cs[0]), S.RangeOfAll(cs[1..]));
  }

  lemma LastRange(cs: seq<S.Unit>)
    requires |cs| == 1
    ensures S.RangeOfAll(cs) == CatRange(S.RangeOf(cs[0]), Range(0, 0))
  {
    assert cs[1..] == [];
  }

  lemma RegexBy(t: string, config: Config, limit: nat)
    ensures Simplifies(if config.allowRegex then S.Regex(config.fold(t)) else S.Alternation([]), Regex(t), config, limit)
  {
  }

  lemma DictBy(u: S.Unit, t: string, config: Config, limit: nat)
    requires var text := config.fold(t);
             && (forall R: S.RegexMeaning :: S.Lang(u, R) == DictPhrases(text, Synonyms(text, config.dictionary)))
             && S.Weight(u) <= LongestSynonym(text, Synonyms(text, config.dictionary)) && S.RegexFree(u)
    ensures Simplifies(u, DictSet(t), config, limit)
  {
  }
}
