/** What `to_simple` (src/netspeak/QueryNormalizer.cpp) does to lengths, which alone decides whether it rejects a query. */
module SimplifiedRanges {
  import opened MachineInts
  import opened Languages
  import opened Combinatorics
  import opened Permutations
  import opened ChainCutters
  import opened Sequences
  import opened LengthRanges
  import opened Queries
  import opened NormQueries
  import opened QueryOptimizer
  import S = SimpleQueries

  // ---------------------------------------------------------------- lists of simplified units

  ghost function Langs(us: seq<S.Unit>, R: S.RegexMeaning): (Ls: seq<Language<S.Word>>)
    ensures |Ls| == |us| && forall i :: 0 <= i < |us| ==> Ls[i] == S.Lang(us[i], R)
  {
    seq(|us|, i requires 0 <= i < |us| => S.Lang(us[i], R))
  }

  lemma {:induction false} LangAllIsCatList(us: seq<S.Unit>, R: S.RegexMeaning)
    ensures S.LangAll(us, R) == CatList(Langs(us, R))
  {
    if us != [] {
      LangAllIsCatList(us[1..], R);
      assert Langs(us, R)[1..] == Langs(us[1..], R);
    }
  }

  /** An element that accepts only the empty phrase is left out. */
  function Nontrivial(us: seq<S.Unit>): seq<S.Unit>
  {
    if us == [] then []
    else Nontrivial(us[..|us| - 1]) + (if IsEpsilon(us[|us| - 1]) then [] else [us[|us| - 1]])
  }

  predicate IsEpsilon(u: S.Unit)
  {
    S.RangeOf(u).Range? && S.RangeOf(u).max == 0
  }

  lemma EpsilonLang(u: S.Unit, R: S.RegexMeaning)
    requires S.Weight(u) < UINT32_MAX && IsEpsilon(u)
    ensures S.Lang(u, R) == Epsilon()
  {
    S.RangeWithinWeight(u);
    S.RangeCovers(u, R);
    ZeroHasEmpty(u, R);
    forall p: S.Phrase
      ensures Has(S.Lang(u, R), p) <==> p == []
    {
    }
    Extensional(S.Lang(u, R), Epsilon());
  }

  lemma NontrivialSnoc(us: seq<S.Unit>)
    requires us != []
    ensures var front, last := us[..|us| - 1], us[|us| - 1];
            Nontrivial(us) == if IsEpsilon(last) then Nontrivial(front) else Nontrivial(front) + [last]
  {
  }

  lemma {:induction false} NontrivialWeight(us: seq<S.Unit>)
    ensures S.WeightSum(Nontrivial(us)) <= S.WeightSum(us)
    ensures S.AllRegexFree(us) ==> S.AllRegexFree(Nontrivial(us))
  {
    if us != [] {
      var front, last := us[..|us| - 1], us[|us| - 1];
      assert us == front + [last] && [last][1..] == [];
      NontrivialWeight(front);
      NontrivialSnoc(us);
      assert S.WeightSum([last]) == S.Weight(last);
      S.WeightSumAppend(front, [last]);
      S.WeightSumAppend(Nontrivial(front), [last]);
    }
  }

  function UnitRanges(us: seq<S.Unit>): (rs: seq<Range>)
    ensures |rs| == |us| && forall i :: 0 <= i < |us| ==> rs[i] == S.RangeOf(us[i])
  {
    seq(|us|, i requires 0 <= i < |us| => S.RangeOf(us[i]))
  }

  lemma UnitRangesSnoc(us: seq<S.Unit>, u: S.Unit)
    requires AllRanges(UnitRanges(us)) && S.RangeOf(u).Range?
    ensures AllRanges(UnitRanges(us + [u]))
    ensures Sum(Mins(UnitRanges(us + [u]))) == Sum(Mins(UnitRanges(us))) + S.RangeOf(u).min
  {
    var m := Mins(UnitRanges(us + [u]));
    assert m[..|m| - 1] == Mins(UnitRanges(us));
  }

  lemma {:induction false} UnitRangesWithin(us: seq<S.Unit>)
    requires S.WeightSum(us) < UINT32_MAX && AllRanges(UnitRanges(us))
    ensures Sum(Mins(UnitRanges(us))) <= S.WeightSum(us)
  {
    if us != [] {
      var front, last := us[..|us| - 1], us[|us| - 1];
      assert us == front + [last] && [last][1..] == [];
      assert forall i :: 0 <= i < |front| ==> UnitRanges(front)[i] == UnitRanges(us)[i];
      assert S.WeightSum([last]) == S.Weight(last);
      S.WeightSumAppend(front, [last]);
      S.RangeWithinWeight(last);
      assert UnitRanges(us)[|us| - 1].Range?;
      UnitRangesSnoc(front, last);
      UnitRangesWithin(front);
    }
  }

  lemma UnitRangesCover(us: seq<S.Unit>, R: S.RegexMeaning)
    requires S.WeightSum(us) < UINT32_MAX
    ensures CoversList(UnitRanges(us), Langs(us, R))
  {
    forall i | 0 <= i < |us|
      ensures S.Covers(UnitRanges(us)[i], Langs(us, R)[i])
    {
      S.WeightOfChild(us, i);
      S.RangeCovers(us[i], R);
    }
  }

  lemma {:induction false} LangAllNontrivial(us: seq<S.Unit>, R: S.RegexMeaning)
    requires S.WeightSum(us) < UINT32_MAX
    ensures S.LangAll(Nontrivial(us), R) == S.LangAll(us, R)
  {
    if us != [] {
      var front, last := us[..|us| - 1], us[|us| - 1];
      InitAndLast(us);
      S.WeightSumAppend(front, [last]);
      assert [last][1..] == [];
      LangAllNontrivial(front, R);
      S.LangAllAppend(front, [last], R);
      S.LangAllAppend(Nontrivial(front), [last], R);
      S.LangAllOne(last, R);
      NontrivialSnoc(us);
      if IsEpsilon(last) {
        EpsilonLang(last, R);
        CatEpsilon(S.LangAll(front, R));
      }
    }
  }

  function CatRanges(rs: seq<Range>): Range
  {
    if rs == [] then Range(0, 0) else CatRange(rs[0], CatRanges(rs[1..]))
  }

  function UniteRanges(rs: seq<Range>): Range
  {
    if rs == [] then NoLength else UniteRange(rs[0], UniteRanges(rs[1..]))
  }

  lemma {:induction false} UnitRangesOf(us: seq<S.Unit>)
    ensures S.RangeOfAll(us) == CatRanges(UnitRanges(us)) && S.RangeOfAny(us) == UniteRanges(UnitRanges(us))
  {
    if us != [] {
      UnitRangesOf(us[1..]);
      assert UnitRanges(us)[1..] == UnitRanges(us[1..]);
    }
  }

  // ---------------------------------------------------------------- a language has one exact range

  lemma OneExactRange(a: Range, b: Range, A: Language<S.Word>)
    requires S.Covers(a, A) && S.Attained(a, A) && S.Covers(b, A) && S.Attained(b, A)
    ensures a == b
  {
    if a.Range? && b.Range? {
      if a.max == UINT32_MAX && b.max != UINT32_MAX {
        var p := LongMember(A, b.max + 1);
      }
      if b.max == UINT32_MAX && a.max != UINT32_MAX {
        var p := LongMember(A, a.max + 1);
      }
    }
  }

  lemma LongMember(A: Language<S.Word>, n: nat) returns (p: S.Phrase)
    requires S.ReachesLength(A, n)
    ensures Has(A, p) && |p| >= n
  {
    p :| Has(A, p) && |p| >= n;
  }

  /** Every regex stands for some word. */
  ghost function SomeWord(): S.RegexMeaning
  {
    t => iset{t}
  }

  lemma SameLangSameRange(u: S.Unit, v: S.Unit)
    requires S.Weight(u) < UINT32_MAX && S.Weight(v) < UINT32_MAX && S.Lang(u, SomeWord()) == S.Lang(v, SomeWord())
    ensures S.RangeOf(u) == S.RangeOf(v)
  {
    assert forall t :: t in SomeWord()(t);
    S.RangeExact(u, SomeWord());
    S.RangeExact(v, SomeWord());
    OneExactRange(S.RangeOf(u), S.RangeOf(v), S.Lang(u, SomeWord()));
  }

  /** The range of a concatenation in terms of sums. */
  lemma {:induction false} RangeOfAllIsSum(us: seq<S.Unit>)
    requires S.WeightSum(us) < UINT32_MAX && AllRanges(UnitRanges(us))
    ensures var rs := UnitRanges(us);
            && S.RangeOfAll(us) == Range(Sum(Mins(rs)), if AllBounded(rs) then Sum(Maxs(rs)) else UINT32_MAX)
            && (AllBounded(rs) ==> Sum(Maxs(rs)) <= S.WeightSum(us))
  {
    if us != [] {
      var rs := UnitRanges(us);
      assert rs[1..] == UnitRanges(us[1..]);
      assert rs[0].Range? && AllRanges(rs[1..]);
      RangeOfAllIsSum(us[1..]);
      RangesCons(rs);
      S.RangeWithinWeight(us[0]);
      S.RangeOfAllWithin(us[1..]);
    }
  }

  lemma OrderCovered(us: seq<S.Unit>, R: S.RegexMeaning)
    requires S.WeightSum(us) < UINT32_MAX
    ensures S.Covers(S.RangeOfAll(us), AnyOrder(Langs(us, R)))
  {
    var rs, Ls := UnitRanges(us), Langs(us, R);
    UnitRangesCover(us, R);
    forall p | Has(AnyOrder(Ls), p)
      ensures var r := S.RangeOfAll(us); r.Range? && r.min <= |p| && (r.max == UINT32_MAX || |p| <= r.max)
    {
      var idx :| IsOrder(idx, |Ls|) && Has(CatList(Select(Ls, idx)), p);
      CatListLength(Select(rs, idx), Select(Ls, idx), p);
      SelectedSums(rs, idx);
      RangeOfAllIsSum(us);
    }
  }

  lemma AttainedInLarger(r: Range, A: Language<S.Word>, B: Language<S.Word>)
    requires S.Attained(r, A) && Subset(A, B)
    ensures S.Attained(r, B)
  {
    if r.Range? {
      forall n: nat | S.ReachesLength(A, n)
        ensures S.ReachesLength(B, n)
      {
        var p :| Has(A, p) && |p| >= n;
        assert Has(B, p);
      }
      var p :| Has(A, p) && |p| == r.min;
      assert Has(B, p);
      if r.max != UINT32_MAX {
        var q :| Has(A, q) && |q| == r.max;
        assert Has(B, q);
      }
    }
  }

  lemma IdentityOrder(Ls: seq<Language<S.Word>>)
    ensures Subset(CatList(Ls), AnyOrder(Ls))
  {
    var idx := Indexes(|Ls|);
    assert Select(Ls, idx) == Ls;
    assert IsOrder(idx, |Ls|);
    forall p | Has(CatList(Ls), p)
      ensures InSomeOrder(p, Ls)
    {
      assert Has(CatList(Select(Ls, idx)), p);
    }
  }

  lemma OrderAttained(us: seq<S.Unit>, R: S.RegexMeaning)
    requires S.WeightSum(us) < UINT32_MAX && forall t :: R(t) != iset{}
    ensures S.Attained(S.RangeOfAll(us), AnyOrder(Langs(us, R)))
  {
    S.RangeAttained(S.Concat(us), R);
    LangAllIsCatList(us, R);
    IdentityOrder(Langs(us, R));
    AttainedInLarger(S.RangeOfAll(us), S.LangAll(us, R), AnyOrder(Langs(us, R)));
  }

  /** Any order of units is as long as their concatenation. */
  lemma OrderedRange(r: S.Unit, elements: seq<S.Unit>)
    requires S.Weight(r) < UINT32_MAX && S.WeightSum(elements) < UINT32_MAX
    requires S.Lang(r, SomeWord()) == AnyOrder(Langs(elements, SomeWord()))
    ensures S.RangeOf(r) == S.RangeOfAll(elements)
  {
    assert forall t :: t in SomeWord()(t);
    S.RangeExact(r, SomeWord());
    OrderCovered(elements, SomeWord());
    OrderAttained(elements, SomeWord());
    OneExactRange(S.RangeOf(r), S.RangeOfAll(elements), S.Lang(r, SomeWord()));
  }

  lemma NontrivialRange(us: seq<S.Unit>)
    requires S.WeightSum(us) < UINT32_MAX
    ensures S.RangeOfAll(Nontrivial(us)) == S.RangeOfAll(us)
  {
    LangAllNontrivial(us, SomeWord());
    NontrivialWeight(us);
    SameLangSameRange(S.Concat(Nontrivial(us)), S.Concat(us));
  }

  // ---------------------------------------------------------------- which queries are rejected

  /** A query is rejected, or simplified to a tree of this range. */
  datatype Verdict = Rejected | Accepted(range: Range)

  function DictRange(text: string, synonyms: seq<string>): Range
  {
    if synonyms == [] then Range(1, 1)
    else
      var others, last := DictRange(text, synonyms[..|synonyms| - 1]), synonyms[|synonyms| - 1];
      if last == text then others else UniteRange(others, Range(|SplitWords(last)|, |SplitWords(last)|))
  }

  /** A part that ends the loop over the elements of an order set: a rejected one, or one that accepts nothing. */
  predicate Obstacle(v: Verdict)
  {
    v.Rejected? || v.range.NoLength?
  }

  function FirstObstacle(vs: seq<Verdict>): (k: nat)
    ensures k <= |vs| && (k < |vs| ==> Obstacle(vs[k]))
    ensures forall j :: 0 <= j < k ==> !Obstacle(vs[j])
  {
    if vs == [] || Obstacle(vs[0]) then 0 else 1 + FirstObstacle(vs[1..])
  }

  function RangesOf(vs: seq<Verdict>): (rs: seq<Range>)
    ensures |rs| == |vs| && forall i :: 0 <= i < |vs| && vs[i].Accepted? ==> rs[i] == vs[i].range
  {
    seq(|vs|, i requires 0 <= i < |vs| => if vs[i].Accepted? then vs[i].range else NoLength)
  }

  /** How many elements accept more than the empty phrase. */
  function Growing(rs: seq<Range>): nat
  {
    if rs == [] then 0
    else
      var last := rs[|rs| - 1];
      Growing(rs[..|rs| - 1]) + if last.Range? && last.max == 0 then 0 else 1
  }

  /** An order set is rejected if no element stops the loop, all elements together fit the maximum length, and those
      that are more than the empty phrase have too many orders. */
  function OrderVerdict(vs: seq<Verdict>, options: Options): Verdict
  {
    var k, rs := FirstObstacle(vs), RangesOf(vs);
    if k < |vs| then vs[k]
    else if Sum(Mins(rs)) > options.maxLength then Accepted(NoLength)
    else if Growing(rs) < 7 && Fact(Growing(rs)) <= options.maxNormQueries then Accepted(CatRanges(rs))
    else Rejected
  }

  predicate Leaf(q: Query)
  {
    !q.OrderSet? && !q.Concat? && !q.Alternation? && !q.OptionSet?
  }

  function LeafRange(q: Query, config: Config): Range
    requires Leaf(q)
  {
    match q
    case Word(_) => Range(1, 1)
    case QMark => Range(1, 1)
    case Star => Range(0, UINT32_MAX)
    case Plus => Range(1, UINT32_MAX)
    case Regex(_) => if config.allowRegex then Range(1, 1) else NoLength
    case DictSet(t) => DictRange(config.fold(t), Synonyms(config.fold(t), config.dictionary))
  }

  lemma LeafVerdict(q: Query, config: Config, options: Options)
    requires Leaf(q)
    ensures VerdictOf(q, config, options) == Accepted(LeafRange(q, config))
  {
  }

  function VerdictOf(q: Query, config: Config, options: Options): Verdict
    decreases q, 1
  {
    match q
    case OrderSet(cs) => OrderVerdict(Verdicts(cs, config, options), options)
    case Concat(cs) =>
      var vs := Verdicts(cs, config, options);
      if Rejected in vs then Rejected else Accepted(CatRanges(RangesOf(vs)))
    case Alternation(cs) =>
      var vs := Verdicts(cs, config, options);
      if Rejected in vs then Rejected else Accepted(UniteRanges(RangesOf(vs)))
    case OptionSet(cs) =>
      var vs := Verdicts(cs, config, options);
      if Rejected in vs then Rejected
      else
        var r := UniteRanges(RangesOf(vs));
        Accepted(if |cs| <= 1 then UniteRange(Range(0, 0), r) else r)
    case _ => Accepted(LeafRange(q, config))
  }

  function Verdicts(cs: seq<Query>, config: Config, options: Options): (vs: seq<Verdict>)
    ensures |vs| == |cs|
    decreases cs, 0
  {
    if cs == [] then [] else [VerdictOf(cs[0], config, options)] + Verdicts(cs[1..], config, options)
  }

  lemma {:induction false} VerdictsAt(cs: seq<Query>, config: Config, options: Options, i: nat)
    requires i < |cs|
    ensures Verdicts(cs, config, options)[i] == VerdictOf(cs[i], config, options)
  {
    if i > 0 {
      VerdictsAt(cs[1..], config, options, i - 1);
    }
  }

  /** The first of the verdicts are those of the units made so far. */
  ghost predicate AgreeWith(vs: seq<Verdict>, us: seq<S.Unit>)
  {
    |us| <= |vs| && forall j :: 0 <= j < |us| ==> vs[j] == Accepted(S.RangeOf(us[j]))
  }

  lemma AgreeSnoc(vs: seq<Verdict>, us: seq<S.Unit>, u: S.Unit)
    requires AgreeWith(vs, us) && |us| < |vs| && vs[|us|] == Accepted(S.RangeOf(u))
    ensures AgreeWith(vs, us + [u])
  {
  }

  lemma AllAccepted(vs: seq<Verdict>, us: seq<S.Unit>)
    requires AgreeWith(vs, us) && |us| == |vs|
    ensures Rejected !in vs && RangesOf(vs) == UnitRanges(us)
  {
  }

  lemma ObstacleIsFirst(vs: seq<Verdict>, us: seq<S.Unit>, options: Options)
    requires AgreeWith(vs, us) && AllRanges(UnitRanges(us)) && |us| < |vs| && Obstacle(vs[|us|])
    ensures OrderVerdict(vs, options) == vs[|us|]
  {
    NoneStops(vs, us);
    assert FirstObstacle(vs) == |us|;
  }

  lemma NoneStops(vs: seq<Verdict>, us: seq<S.Unit>)
    requires AgreeWith(vs, us) && AllRanges(UnitRanges(us))
    ensures forall j :: 0 <= j < |us| ==> !Obstacle(vs[j])
  {
    forall j | 0 <= j < |us|
      ensures !Obstacle(vs[j])
    {
      assert vs[j] == Accepted(UnitRanges(us)[j]) && UnitRanges(us)[j].Range?;
    }
  }

  lemma {:induction false} GrowingIsNontrivial(us: seq<S.Unit>)
    ensures |Nontrivial(us)| == Growing(UnitRanges(us))
  {
    if us != [] {
      var front := us[..|us| - 1];
      GrowingIsNontrivial(front);
      NontrivialSnoc(us);
      assert UnitRanges(us)[..|us| - 1] == UnitRanges(front);
    }
  }

  lemma NoObstacle(vs: seq<Verdict>, us: seq<S.Unit>, options: Options)
    requires AgreeWith(vs, us) && AllRanges(UnitRanges(us)) && |us| == |vs|
    ensures var n := |Nontrivial(us)|;
            OrderVerdict(vs, options)
            == if Sum(Mins(UnitRanges(us))) > options.maxLength then Accepted(NoLength)
               else if n < 7 && Fact(n) <= options.maxNormQueries then Accepted(S.RangeOfAll(us))
               else Rejected
  {
    AllAccepted(vs, us);
    GrowingIsNontrivial(us);
    UnitRangesOf(us);
    NoneStops(vs, us);
    assert FirstObstacle(vs) == |vs|;
  }

  // ---------------------------------------------------------------- the parts of the other sets

  lemma InlinedConcatRange(us: seq<S.Unit>)
    requires S.WeightSum(us) < UINT32_MAX
    ensures S.RangeOfAll(Inlined(us, S.CONCAT)) == CatRanges(UnitRanges(us))
  {
    InlinedConcat(us, SomeWord());
    InlinedConcatWeight(us);
    SameLangSameRange(S.Concat(Inlined(us, S.CONCAT)), S.Concat(us));
    UnitRangesOf(us);
  }

  lemma InlinedAlternationRange(us: seq<S.Unit>)
    requires S.WeightMax(us) < UINT32_MAX
    ensures S.RangeOfAny(Inlined(us, S.ALTERNATION)) == UniteRanges(UnitRanges(us))
  {
    InlinedAlternation(us, SomeWord());
    SameLangSameRange(S.Alternation(Inlined(us, S.ALTERNATION)), S.Alternation(us));
    UnitRangesOf(us);
  }

  // ---------------------------------------------------------------- dictionary words

  lemma InDictSnoc(p: S.Phrase, text: string, synonyms: seq<string>)
    requires synonyms != []
    ensures var front, last := synonyms[..|synonyms| - 1], synonyms[|synonyms| - 1];
            InDictSet(p, text, synonyms) <==> InDictSet(p, text, front) || (last != text && p == SplitWords(last))
  {
    var front := synonyms[..|synonyms| - 1];
    assert forall i :: 0 <= i < |front| ==> front[i] == synonyms[i];
    if i :| 0 <= i < |synonyms| && synonyms[i] != text && p == SplitWords(synonyms[i]) {
      if i < |front| { assert front[i] == synonyms[i]; }
    }
  }

  lemma {:induction false} DictWithin(p: S.Phrase, text: string, synonyms: seq<string>)
    requires InDictSet(p, text, synonyms)
    ensures DictRange(text, synonyms).Range? && DictRange(text, synonyms).min <= |p| <= DictRange(text, synonyms).max
    decreases |synonyms|
  {
    if synonyms != [] {
      var front := synonyms[..|synonyms| - 1];
      InDictSnoc(p, text, synonyms);
      InDictSnoc([text], text, synonyms);
      DictWithin([text], text, front);
      if InDictSet(p, text, front) {
        DictWithin(p, text, front);
      }
    }
  }

  lemma {:induction false} DictShortest(text: string, synonyms: seq<string>) returns (p: S.Phrase)
    ensures InDictSet(p, text, synonyms) && DictRange(text, synonyms).Range? && |p| == DictRange(text, synonyms).min
  {
    p := [text];
    if synonyms != [] {
      var front, last := synonyms[..|synonyms| - 1], synonyms[|synonyms| - 1];
      p := DictShortest(text, front);
      if last != text && |SplitWords(last)| < |p| { p := SplitWords(last); }
      InDictSnoc(p, text, synonyms);
    }
  }

  lemma {:induction false} DictLongest(text: string, synonyms: seq<string>) returns (p: S.Phrase)
    ensures InDictSet(p, text, synonyms) && DictRange(text, synonyms).Range? && |p| == DictRange(text, synonyms).max
  {
    p := [text];
    if synonyms != [] {
      var front, last := synonyms[..|synonyms| - 1], synonyms[|synonyms| - 1];
      p := DictLongest(text, front);
      if last != text && |SplitWords(last)| > |p| { p := SplitWords(last); }
      InDictSnoc(p, text, synonyms);
    }
  }

  lemma {:induction false} LongestSynonymAt(text: string, synonyms: seq<string>, i: nat)
    requires i < |synonyms|
    ensures |SplitWords(synonyms[i])| <= LongestSynonym(text, synonyms)
  {
    if i > 0 {
      LongestSynonymAt(text, synonyms[1..], i - 1);
    }
  }

  /** The tree made for a dictionary word has the range of its texts. */
  lemma DictTreeRange(u: S.Unit, text: string, synonyms: seq<string>)
    requires S.Weight(u) < UINT32_MAX && LongestSynonym(text, synonyms) < UINT32_MAX
    requires S.Lang(u, SomeWord()) == DictPhrases(text, synonyms)
    ensures S.RangeOf(u) == DictRange(text, synonyms)
  {
    var r, A := DictRange(text, synonyms), DictPhrases(text, synonyms);
    forall p | Has(A, p)
      ensures r.Range? && r.min <= |p| <= r.max
    {
      DictWithin(p, text, synonyms);
    }
    var p := DictShortest(text, synonyms);
    var q := DictLongest(text, synonyms);
    assert Has(A, p) && Has(A, q);
    LongestIsPositive(text, synonyms);
    assert |q| <= LongestSynonym(text, synonyms) by {
      if i :| 0 <= i < |synonyms| && synonyms[i] != text && q == SplitWords(synonyms[i]) {
        LongestSynonymAt(text, synonyms, i);
      }
    }
    assert forall t :: t in SomeWord()(t);
    S.RangeExact(u, SomeWord());
    OneExactRange(S.RangeOf(u), r, A);
  }

  // ---------------------------------------------------------------- what rejection means for plain words

  lemma {:induction false} WordVerdicts(cs: seq<Query>, config: Config, options: Options)
    requires forall c :: c in cs ==> c.Word?
    ensures forall v :: v in Verdicts(cs, config, options) ==> v == Accepted(Range(1, 1))
  {
    if cs != [] {
      assert cs[0] in cs;
      WordVerdicts(cs[1..], config, options);
    }
  }

  lemma {:induction false} WordSums(rs: seq<Range>)
    requires forall i :: 0 <= i < |rs| ==> rs[i] == Range(1, 1)
    ensures Sum(Mins(rs)) == |rs| && Growing(rs) == |rs|
  {
    if rs != [] {
      var front := rs[..|rs| - 1];
      WordSums(front);
      assert Mins(rs)[..|rs| - 1] == Mins(front);
    }
  }

  /** An order set of plain words is rejected exactly when it fits the maximum length and has seven or more words, or
      more orders than there may be norm queries. */
  lemma WordsInAnyOrderRejectedIff(cs: seq<Query>, config: Config, options: Options)
    requires forall c :: c in cs ==> c.Word?
    ensures VerdictOf(OrderSet(cs), config, options).Rejected?
       <==> |cs| <= options.maxLength && (|cs| >= 7 || Fact(|cs|) > options.maxNormQueries)
  {
    var vs := Verdicts(cs, config, options);
    WordVerdicts(cs, config, options);
    assert forall i :: 0 <= i < |vs| ==> vs[i] in vs;
    WordSums(RangesOf(vs));
    assert FirstObstacle(vs) == |vs|;
  }

  // ---------------------------------------------------------------- what it means for any elements

  predicate Grows(r: Range)
  {
    r.Range? ==> r.max > 0
  }

  /** The positions of the elements that are more than the empty phrase. */
  ghost function GrowingAt(rs: seq<Range>): set<nat>
  {
    set i: nat | i < |rs| && Grows(rs[i])
  }

  lemma {:induction false} GrowingCounts(rs: seq<Range>)
    ensures Growing(rs) == |GrowingAt(rs)|
  {
    if rs == [] {
      assert GrowingAt(rs) == {};
    } else {
      var front, last := rs[..|rs| - 1], |rs| - 1;
      GrowingCounts(front);
      assert GrowingAt(rs) == if Grows(rs[last]) then GrowingAt(front) + {last} else GrowingAt(front);
    }
  }

  /** An order set whose elements are accepted and have lengths is rejected exactly when they fit the maximum length together
      and seven or more of them are more than the empty phrase, or these have more orders than there may be norm queries. */
  lemma OrderSetRejectedIff(cs: seq<Query>, config: Config, options: Options)
    requires forall i :: 0 <= i < |cs| ==> VerdictOf(cs[i], config, options).Accepted? && VerdictOf(cs[i], config, options).range.Range?
    ensures var rs := seq(|cs|, i requires 0 <= i < |cs| => VerdictOf(cs[i], config, options).range);
            var n := |set i: nat | i < |cs| && rs[i].max > 0|;
            VerdictOf(OrderSet(cs), config, options).Rejected?
            <==> Sum(Mins(rs)) <= options.maxLength && (n >= 7 || Fact(n) > options.maxNormQueries)
  {
    var vs := Verdicts(cs, config, options);
    var rs := seq(|cs|, i requires 0 <= i < |cs| => VerdictOf(cs[i], config, options).range);
    forall i | 0 <= i < |cs|
      ensures vs[i] == Accepted(rs[i]) && rs[i].Range?
    {
      VerdictsAt(cs, config, options, i);
    }
    assert RangesOf(vs) == rs;
    assert FirstObstacle(vs) == |vs|;
    GrowingCounts(rs);
    assert GrowingAt(rs) == set i: nat | i < |cs| && rs[i].max > 0;
  }

  /** The first element that is rejected or accepts nothing decides, whatever stands behind it. */
  lemma OrderSetStopsAt(cs: seq<Query>, i: nat, config: Config, options: Options)
    requires i < |cs| && forall j :: 0 <= j < i ==> !Obstacle(VerdictOf(cs[j], config, options))
    requires Obstacle(VerdictOf(cs[i], config, options))
    ensures VerdictOf(OrderSet(cs), config, options) == VerdictOf(cs[i], config, options)
  {
    var vs := Verdicts(cs, config, options);
    forall j | 0 <= j <= i
      ensures vs[j] == VerdictOf(cs[j], config, options)
    {
      VerdictsAt(cs, config, options, j);
    }
    assert FirstObstacle(vs) == i;
  }
}
