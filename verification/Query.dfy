/** The query syntax tree (src/netspeak/model/Query.hpp and .cpp) and what it denotes. */
module Queries {
  import opened MachineInts
  import opened Languages
  import opened LengthRanges
  import opened ChainCutters
  import opened Permutations
  import opened Sequences
  import S = SimpleQueries

  datatype Query =
    | Word(text: string)
    | QMark
    | Star
    | Plus
    | Regex(text: string)
    | DictSet(text: string)
    | OptionSet(children: seq<Query>)
    | OrderSet(children: seq<Query>)
    | Alternation(children: seq<Query>)
    | Concat(children: seq<Query>)

  /** What the normalizer is set up with: lower-casing (or the identity), the dictionary, and whether regexes are allowed. */
  datatype Config = Config(fold: string -> string, dictionary: map<string, seq<string>>, allowRegex: bool)

  /** boost::split at every space. */
  function SplitWords(s: string): (words: seq<string>)
    ensures |words| > 0
  {
    if s == [] then [""]
    else
      var words := SplitWords(s[..|s| - 1]);
      if s[|s| - 1] == ' ' then words + [""] else words[..|words| - 1] + [words[|words| - 1] + [s[|s| - 1]]]
  }

  function Synonyms(text: string, dictionary: map<string, seq<string>>): seq<string>
  {
    if text in dictionary then dictionary[text] else []
  }

  /** A dictionary set stands for its own text and for the phrases of its other synonyms. */
  ghost predicate InDictSet(p: S.Phrase, text: string, synonyms: seq<string>)
  {
    p == [text] || exists i :: 0 <= i < |synonyms| && synonyms[i] != text && p == SplitWords(synonyms[i])
  }

  ghost function DictPhrases(text: string, synonyms: seq<string>): Language<S.Word>
  {
    Language(iset p: S.Phrase | InDictSet(p, text, synonyms))
  }

  ghost function NonEmpty(): Language<S.Word>
  {
    Language(iset p: S.Phrase | |p| >= 1)
  }

  ghost function CatList(Ls: seq<Language<S.Word>>): Language<S.Word>
  {
    if Ls == [] then Epsilon() else Cat(Ls[0], CatList(Ls[1..]))
  }

  ghost function UnionList(Ls: seq<Language<S.Word>>): Language<S.Word>
  {
    if Ls == [] then Nothing() else Union(Ls[0], UnionList(Ls[1..]))
  }

  /** 0, 1, ..., n - 1. */
  function Indexes(n: nat): (idx: seq<nat>)
    ensures |idx| == n && forall i :: 0 <= i < n ==> idx[i] == i
  {
    if n == 0 then [] else Indexes(n - 1) + [n - 1]
  }

  predicate InRange(idx: seq<nat>, n: nat)
  {
    forall i :: 0 <= i < |idx| ==> idx[i] < n
  }

  function Select<T>(xs: seq<T>, idx: seq<nat>): (r: seq<T>)
    requires forall i :: 0 <= i < |idx| ==> idx[i] < |xs|
    ensures |r| == |idx| && forall i :: 0 <= i < |idx| ==> r[i] == xs[idx[i]]
  {
    seq(|idx|, i requires 0 <= i < |idx| => xs[idx[i]])
  }

  /** An order of n things: each index once. */
  ghost predicate IsOrder(idx: seq<nat>, n: nat)
  {
    Permutes(idx, Indexes(n)) && InRange(idx, n)
  }

  ghost predicate InSomeOrder(p: S.Phrase, Ls: seq<Language<S.Word>>)
  {
    exists idx :: IsOrder(idx, |Ls|) && Has(CatList(Select(Ls, idx)), p)
  }

  /** The concatenations of the languages in any order. */
  ghost function AnyOrder(Ls: seq<Language<S.Word>>): Language<S.Word>
  {
    Language(iset p: S.Phrase | InSomeOrder(p, Ls))
  }

  /** The phrases a query accepts. An option set of at most one element is optional. */
  ghost function QueryLang(q: Query, config: Config, R: S.RegexMeaning): Language<S.Word>
    decreases q, 1
  {
    match q
    case Word(t) => Just([config.fold(t)])
    case QMark => Singles()
    case Star => All()
    case Plus => NonEmpty()
    case Regex(t) => if config.allowRegex then S.RegexPhrases(R(config.fold(t))) else Nothing()
    case DictSet(t) => DictPhrases(config.fold(t), Synonyms(config.fold(t), config.dictionary))
    case OptionSet(cs) =>
      if |cs| <= 1 then Union(Epsilon(), UnionList(QueryLangs(cs, config, R))) else UnionList(QueryLangs(cs, config, R))
    case OrderSet(cs) => AnyOrder(QueryLangs(cs, config, R))
    case Alternation(cs) => UnionList(QueryLangs(cs, config, R))
    case Concat(cs) => CatList(QueryLangs(cs, config, R))
  }

  ghost function QueryLangs(cs: seq<Query>, config: Config, R: S.RegexMeaning): (Ls: seq<Language<S.Word>>)
    ensures |Ls| == |cs|
    decreases cs, 0
  {
    if cs == [] then [] else [QueryLang(cs[0], config, R)] + QueryLangs(cs[1..], config, R)
  }

  lemma {:induction false} QueryLangsAt(cs: seq<Query>, config: Config, R: S.RegexMeaning, i: nat)
    requires i < |cs|
    ensures QueryLangs(cs, config, R)[i] == QueryLang(cs[i], config, R)
  {
    if i > 0 {
      QueryLangsAt(cs[1..], config, R, i - 1);
    }
  }

  // ---------------------------------------------------------------- lengths

  function LongestSynonym(text: string, synonyms: seq<string>): nat
  {
    if synonyms == [] then 1 else Max(LongestSynonym(text, synonyms[1..]), |SplitWords(synonyms[0])|)
  }

  /** The most fixed words any path through a query has. Below UINT32_MAX, no 32-bit length sum wraps. */
  function QueryWeight(q: Query, config: Config): nat
    decreases q, 1
  {
    match q
    case Star => 0
    case DictSet(t) => LongestSynonym(config.fold(t), Synonyms(config.fold(t), config.dictionary))
    case OptionSet(cs) => QueryWeightMax(cs, config)
    case Alternation(cs) => QueryWeightMax(cs, config)
    case OrderSet(cs) => QueryWeightSum(cs, config)
    case Concat(cs) => QueryWeightSum(cs, config)
    case _ => 1
  }

  function QueryWeightSum(cs: seq<Query>, config: Config): nat
    decreases cs, 0
  {
    if cs == [] then 0 else QueryWeight(cs[0], config) + QueryWeightSum(cs[1..], config)
  }

  function QueryWeightMax(cs: seq<Query>, config: Config): nat
    decreases cs, 0
  {
    if cs == [] then 0 else Max(QueryWeight(cs[0], config), QueryWeightMax(cs[1..], config))
  }

  lemma {:induction false} QueryWeightOfChild(cs: seq<Query>, config: Config, i: nat)
    requires i < |cs|
    ensures QueryWeight(cs[i], config) <= QueryWeightMax(cs, config) <= QueryWeightSum(cs, config)
  {
    QueryWeightMaxSum(cs, config);
    if i > 0 {
      QueryWeightOfChild(cs[1..], config, i - 1);
    }
  }

  lemma {:induction false} QueryWeightMaxSum(cs: seq<Query>, config: Config)
    ensures QueryWeightMax(cs, config) <= QueryWeightSum(cs, config)
  {
    if cs != [] {
      QueryWeightMaxSum(cs[1..], config);
    }
  }

  /** The range that `length_range` gives for a query. */
  function QueryRange(q: Query): Range
    decreases q, 1
  {
    match q
    case Word(_) => Range(1, 1)
    case QMark => Range(1, 1)
    case Regex(_) => Range(1, 1)
    case Star => Range(0, UINT32_MAX)
    case Plus => Range(1, UINT32_MAX)
    case DictSet(_) => Range(1, UINT32_MAX)
    case OptionSet(cs) => UniteRange(Range(0, 0), QueryRangeAny(cs))
    case Alternation(cs) => QueryRangeAny(cs)
    case OrderSet(cs) => QueryRangeAll(cs)
    case Concat(cs) => QueryRangeAll(cs)
  }

  function QueryRangeAll(cs: seq<Query>): Range
    decreases cs, 0
  {
    if cs == [] then Range(0, 0) else CatRange(QueryRange(cs[0]), QueryRangeAll(cs[1..]))
  }

  function QueryRangeAny(cs: seq<Query>): Range
    decreases cs, 0
  {
    if cs == [] then NoLength else UniteRange(QueryRange(cs[0]), QueryRangeAny(cs[1..]))
  }

  lemma {:induction false} QueryRangeWithin(q: Query, config: Config)
    requires QueryWeight(q, config) < UINT32_MAX
    ensures S.Within(QueryRange(q), QueryWeight(q, config))
    decreases q, 1
  {
    match q
    case OptionSet(cs) => QueryRangeAnyWithin(cs, config);
    case Alternation(cs) => QueryRangeAnyWithin(cs, config);
    case OrderSet(cs) => QueryRangeAllWithin(cs, config);
    case Concat(cs) => QueryRangeAllWithin(cs, config);
    case DictSet(t) => LongestIsPositive(config.fold(t), Synonyms(config.fold(t), config.dictionary));
    case _ =>
  }

  lemma {:induction false} LongestIsPositive(text: string, synonyms: seq<string>)
    ensures LongestSynonym(text, synonyms) >= 1
  {
    if synonyms != [] {
      LongestIsPositive(text, synonyms[1..]);
    }
  }

  lemma {:induction false} QueryRangeAllWithin(cs: seq<Query>, config: Config)
    requires QueryWeightSum(cs, config) < UINT32_MAX
    ensures S.Within(QueryRangeAll(cs), QueryWeightSum(cs, config))
    decreases cs, 0
  {
    if cs != [] {
      QueryRangeWithin(cs[0], config);
      QueryRangeAllWithin(cs[1..], config);
    }
  }

  lemma {:induction false} QueryRangeAnyWithin(cs: seq<Query>, config: Config)
    requires QueryWeightMax(cs, config) < UINT32_MAX
    ensures S.Within(QueryRangeAny(cs), QueryWeightMax(cs, config))
    decreases cs, 0
  {
    if cs != [] {
      QueryRangeWithin(cs[0], config);
      QueryRangeAnyWithin(cs[1..], config);
    }
  }

  // ---------------------------------------------------------------- sums do not depend on the order

  lemma {:induction false} SumAppend(a: seq<nat>, b: seq<nat>)
    ensures Sum(a + b) == Sum(a) + Sum(b)
  {
    if b == [] {
      assert a + b == a;
    } else {
      SumAppend(a, b[..|b| - 1]);
      assert (a + b)[..|a + b| - 1] == a + b[..|b| - 1];
    }
  }

  lemma SumCons(x: nat, t: seq<nat>)
    ensures Sum([x] + t) == x + Sum(t)
  {
    SumAppend([x], t);
    assert [x][..0] == [];
    assert Sum([x]) == Sum([x][..0]) + x;
  }

  lemma SplitAround<T>(s: seq<T>, k: nat)
    requires k < |s|
    ensures s == s[..k] + ([s[k]] + s[k + 1..])
  {
  }

  lemma SumWithout(a: seq<nat>, k: nat)
    requires k < |a|
    ensures Sum(a) == a[k] + Sum(a[..k] + a[k + 1..])
  {
    var front, back := a[..k], a[k + 1..];
    SplitAround(a, k);
    SumAppend(front, [a[k]] + back);
    SumCons(a[k], back);
    SumAppend(front, back);
  }

  lemma {:induction false} SumPermutes(a: seq<nat>, b: seq<nat>)
    requires Permutes(a, b)
    ensures Sum(a) == Sum(b)
    decreases |a|
  {
    PermutesLength(a, b);
    if a != [] {
      var k := TakeOut(a, b);
      SumWithout(b, k);
      SumCons(a[0], a[1..]);
      assert a == [a[0]] + a[1..];
      SumPermutes(a[1..], b[..k] + b[k + 1..]);
    }
  }

  // ---------------------------------------------------------------- the range covers every accepted length

  /** The range of a sum of lengths: impossible if one is, unbounded if one is. */
  ghost predicate CoversList(rs: seq<Range>, Ls: seq<Language<S.Word>>)
  {
    |rs| == |Ls| && forall i :: 0 <= i < |rs| ==> S.Covers(rs[i], Ls[i])
  }

  function Mins(rs: seq<Range>): (r: seq<nat>)
    requires forall i :: 0 <= i < |rs| ==> rs[i].Range?
    ensures |r| == |rs| && forall i :: 0 <= i < |rs| ==> r[i] == rs[i].min
  {
    seq(|rs|, i requires 0 <= i < |rs| => rs[i].min)
  }

  function Maxs(rs: seq<Range>): (r: seq<nat>)
    requires forall i :: 0 <= i < |rs| ==> rs[i].Range?
    ensures |r| == |rs| && forall i :: 0 <= i < |rs| ==> r[i] == rs[i].max
  {
    seq(|rs|, i requires 0 <= i < |rs| => rs[i].max)
  }

  predicate AllRanges(rs: seq<Range>)
  {
    forall i :: 0 <= i < |rs| ==> rs[i].Range?
  }

  predicate AllBounded(rs: seq<Range>)
    requires forall i :: 0 <= i < |rs| ==> rs[i].Range?
  {
    forall i :: 0 <= i < |rs| ==> rs[i].max != UINT32_MAX
  }

  lemma SumShifted(s: seq<nat>, x: nat, t: seq<nat>)
    requires |s| == |t| + 1 && s[0] == x && forall i :: 0 <= i < |t| ==> s[i + 1] == t[i]
    ensures Sum(s) == x + Sum(t)
  {
    assert s == [x] + t;
    SumCons(x, t);
  }

  lemma AllRangesCons(rs: seq<Range>)
    requires rs != [] && rs[0].Range? && AllRanges(rs[1..])
    ensures AllRanges(rs)
    ensures AllBounded(rs) <==> rs[0].max != UINT32_MAX && AllBounded(rs[1..])
  {
    var t := rs[1..];
    assert forall i :: 0 < i < |rs| ==> rs[i] == t[i - 1];
    assert forall i :: 0 <= i < |t| ==> t[i] == rs[i + 1];
  }

  lemma RangesCons(rs: seq<Range>)
    requires rs != [] && rs[0].Range? && AllRanges(rs[1..])
    ensures AllRanges(rs)
    ensures Sum(Mins(rs)) == rs[0].min + Sum(Mins(rs[1..]))
    ensures Sum(Maxs(rs)) == rs[0].max + Sum(Maxs(rs[1..]))
    ensures AllBounded(rs) <==> rs[0].max != UINT32_MAX && AllBounded(rs[1..])
  {
    AllRangesCons(rs);
    SumShifted(Mins(rs), rs[0].min, Mins(rs[1..]));
    SumShifted(Maxs(rs), rs[0].max, Maxs(rs[1..]));
  }

  lemma {:induction false} CatListLength(rs: seq<Range>, Ls: seq<Language<S.Word>>, p: S.Phrase)
    requires CoversList(rs, Ls) && Has(CatList(Ls), p)
    ensures AllRanges(rs)
    ensures Sum(Mins(rs)) <= |p| && (AllBounded(rs) ==> |p| <= Sum(Maxs(rs)))
  {
    if Ls != [] {
      var x, y := CatElim(p, Ls[0], CatList(Ls[1..]));
      CatListLength(rs[1..], Ls[1..], y);
      assert S.Covers(rs[0], Ls[0]);
      RangesCons(rs);
    }
  }

  function QueryRanges(cs: seq<Query>): (rs: seq<Range>)
    ensures |rs| == |cs|
  {
    if cs == [] then [] else [QueryRange(cs[0])] + QueryRanges(cs[1..])
  }

  /** The range of a concatenation in terms of sums. */
  lemma {:induction false} QueryRangeAllIsSum(cs: seq<Query>, config: Config)
    requires QueryWeightSum(cs, config) < UINT32_MAX && AllRanges(QueryRanges(cs))
    ensures var rs := QueryRanges(cs);
            && QueryRangeAll(cs) == Range(Sum(Mins(rs)), if AllBounded(rs) then Sum(Maxs(rs)) else UINT32_MAX)
            && (AllBounded(rs) ==> Sum(Maxs(rs)) <= QueryWeightSum(cs, config))
  {
    if cs != [] {
      var rs := QueryRanges(cs);
      assert rs[1..] == QueryRanges(cs[1..]);
      assert rs[0].Range? && AllRanges(rs[1..]);
      QueryRangeAllIsSum(cs[1..], config);
      RangesCons(rs);
      QueryRangeWithin(cs[0], config);
      QueryRangeAllWithin(cs[1..], config);
    }
  }

  /** An order holds every index. */
  lemma OrderHits(idx: seq<nat>, n: nat, i: nat) returns (k: nat)
    requires IsOrder(idx, n) && i < n
    ensures k < |idx| && idx[k] == i
  {
    assert Indexes(n)[i] in Indexes(n);
    assert i in multiset(idx);
    k :| 0 <= k < |idx| && idx[k] == i;
  }

  lemma SelectedSums(rs: seq<Range>, idx: seq<nat>)
    requires IsOrder(idx, |rs|) && AllRanges(Select(rs, idx))
    ensures AllRanges(rs)
    ensures Sum(Mins(Select(rs, idx))) == Sum(Mins(rs)) && Sum(Maxs(Select(rs, idx))) == Sum(Maxs(rs))
    ensures AllBounded(Select(rs, idx)) <==> AllBounded(rs)
  {
    var n := |rs|;
    forall i | 0 <= i < n
      ensures rs[i].Range?
    {
      var k := OrderHits(idx, n, i);
      assert Select(rs, idx)[k] == rs[i];
    }
    if AllBounded(Select(rs, idx)) {
      forall i | 0 <= i < n
        ensures rs[i].max != UINT32_MAX
      {
        var k := OrderHits(idx, n, i);
        assert Select(rs, idx)[k] == rs[i];
      }
    }
    SelectPermutes(Mins(rs), idx);
    SelectPermutes(Maxs(rs), idx);
    assert Mins(Select(rs, idx)) == Select(Mins(rs), idx);
    assert Maxs(Select(rs, idx)) == Select(Maxs(rs), idx);
    SumPermutes(Select(Mins(rs), idx), Mins(rs));
    SumPermutes(Select(Maxs(rs), idx), Maxs(rs));
  }

  lemma InRangeWithout(idx: seq<nat>, k: nat, n: nat)
    requires InRange(idx, n) && k < |idx|
    ensures InRange(idx[..k] + idx[k + 1..], n)
  {
  }

  lemma SelectHead<T>(xs: seq<T>, idx: seq<nat>)
    requires InRange(idx, |xs|) && idx != []
    ensures InRange(idx[1..], |xs|)
    ensures multiset(Select(xs, idx)) == multiset{xs[idx[0]]} + multiset(Select(xs, idx[1..]))
  {
    assert Select(xs, idx) == [xs[idx[0]]] + Select(xs, idx[1..]);
  }

  /** Selecting in two orders gives the same multiset. */
  lemma {:induction false} SelectSame<T>(xs: seq<T>, a: seq<nat>, b: seq<nat>)
    requires Permutes(a, b) && InRange(a, |xs|) && InRange(b, |xs|)
    ensures multiset(Select(xs, a)) == multiset(Select(xs, b))
    decreases |a|
  {
    PermutesLength(a, b);
    if a != [] {
      var k := TakeOut(a, b);
      SelectHead(xs, a);
      SelectWithout(xs, b, k);
      SelectSame(xs, a[1..], b[..k] + b[k + 1..]);
    }
  }

  lemma SelectWithout<T>(xs: seq<T>, idx: seq<nat>, k: nat)
    requires InRange(idx, |xs|) && k < |idx|
    ensures InRange(idx[..k] + idx[k + 1..], |xs|)
    ensures multiset(Select(xs, idx)) == multiset{xs[idx[k]]} + multiset(Select(xs, idx[..k] + idx[k + 1..]))
  {
    InRangeWithout(idx, k, |xs|);
    var u, v := Select(xs, idx[..k]), Select(xs, idx[k + 1..]);
    assert Select(xs, idx[..k] + idx[k + 1..]) == u + v;
    assert Select(xs, idx) == u + ([xs[idx[k]]] + v);
  }

  lemma SelectPermutes<T>(xs: seq<T>, idx: seq<nat>)
    requires IsOrder(idx, |xs|)
    ensures multiset(Select(xs, idx)) == multiset(xs)
  {
    SelectSame(xs, idx, Indexes(|xs|));
    assert Select(xs, Indexes(|xs|)) == xs;
  }

  lemma {:induction false} QueryCovers(q: Query, config: Config, R: S.RegexMeaning)
    requires QueryWeight(q, config) < UINT32_MAX
    ensures S.Covers(QueryRange(q), QueryLang(q, config, R))
    decreases q, 1
  {
    match q
    case DictSet(t) =>
    case OptionSet(cs) =>
      QueryAnyCovers(cs, config, R);
      UnionHas(Epsilon(), UnionList(QueryLangs(cs, config, R)));
      QueryRangeAnyWithin(cs, config);
    case Alternation(cs) =>
      QueryAnyCovers(cs, config, R);
    case OrderSet(cs) =>
      QueryAllCovers(cs, config, R);
      AnyOrderCovers(cs, config, QueryLangs(cs, config, R));
    case Concat(cs) =>
      QueryAllCovers(cs, config, R);
      CatListCovers(cs, config, QueryLangs(cs, config, R));
    case _ =>
  }

  lemma {:induction false} QueryAllCovers(cs: seq<Query>, config: Config, R: S.RegexMeaning)
    requires QueryWeightSum(cs, config) < UINT32_MAX
    ensures CoversList(QueryRanges(cs), QueryLangs(cs, config, R))
    decreases cs, 0
  {
    if cs != [] {
      QueryCovers(cs[0], config, R);
      QueryAllCovers(cs[1..], config, R);
    }
  }

  lemma {:induction false} QueryAnyCovers(cs: seq<Query>, config: Config, R: S.RegexMeaning)
    requires QueryWeightMax(cs, config) < UINT32_MAX
    ensures S.Covers(QueryRangeAny(cs), UnionList(QueryLangs(cs, config, R)))
    decreases cs, 0
  {
    if cs != [] {
      QueryCovers(cs[0], config, R);
      QueryAnyCovers(cs[1..], config, R);
      QueryRangeWithin(cs[0], config);
      QueryRangeAnyWithin(cs[1..], config);
      assert QueryLangs(cs, config, R)[1..] == QueryLangs(cs[1..], config, R);
      UnionHas(QueryLang(cs[0], config, R), UnionList(QueryLangs(cs[1..], config, R)));
    }
  }

  lemma CatListCovers(cs: seq<Query>, config: Config, Ls: seq<Language<S.Word>>)
    requires QueryWeightSum(cs, config) < UINT32_MAX && CoversList(QueryRanges(cs), Ls)
    ensures S.Covers(QueryRangeAll(cs), CatList(Ls))
  {
    forall p | Has(CatList(Ls), p)
      ensures var r := QueryRangeAll(cs); r.Range? && r.min <= |p| && (r.max == UINT32_MAX || |p| <= r.max)
    {
      CatListLength(QueryRanges(cs), Ls, p);
      QueryRangeAllIsSum(cs, config);
    }
  }

  lemma AnyOrderCovers(cs: seq<Query>, config: Config, Ls: seq<Language<S.Word>>)
    requires QueryWeightSum(cs, config) < UINT32_MAX && CoversList(QueryRanges(cs), Ls)
    ensures S.Covers(QueryRangeAll(cs), AnyOrder(Ls))
  {
    var rs := QueryRanges(cs);
    forall p | Has(AnyOrder(Ls), p)
      ensures var r := QueryRangeAll(cs); r.Range? && r.min <= |p| && (r.max == UINT32_MAX || |p| <= r.max)
    {
      var idx :| IsOrder(idx, |Ls|) && Has(CatList(Select(Ls, idx)), p);
      CatListLength(Select(rs, idx), Select(Ls, idx), p);
      SelectedSums(rs, idx);
      QueryRangeAllIsSum(cs, config);
    }
  }

  /** `length_range` of a query. */
  method QueryLengthRange(q: Query, ghost config: Config) returns (range: LengthRange)
    requires QueryWeight(q, config) < UINT32_MAX
    ensures fresh(range) && range.Value() == QueryRange(q)
    decreases q
  {
    if q.Word? || q.QMark? || q.Regex? {
      range := new LengthRange.Between(1, 1);
    } else if q.Star? {
      range := new LengthRange.Between(0, UINT32_MAX);
    } else if q.Plus? || q.DictSet? {
      range := new LengthRange.Between(1, UINT32_MAX);
    } else if q.OptionSet? || q.Alternation? {
      if q.OptionSet? {
        range := new LengthRange.Between(0, 0);
      } else {
        range := new LengthRange.Empty();
      }
      UniteChildren(q.children, range, config);
    } else {
      range := ConcatChildren(q.children, config);
    }
  }

  /** Widens the range by the ranges of all alternatives. */
  method UniteChildren(cs: seq<Query>, range: LengthRange, ghost config: Config)
    requires QueryWeightMax(cs, config) < UINT32_MAX
    modifies range
    ensures range.Value() == UniteRange(old(range.Value()), QueryRangeAny(cs))
    decreases cs
  {
    ghost var goal := UniteRange(range.Value(), QueryRangeAny(cs));
    assert cs[0..] == cs;
    for i := 0 to |cs|
      invariant UniteRange(range.Value(), QueryRangeAny(cs[i..])) == goal
    {
      QueryWeightOfChild(cs, config, i);
      var child := QueryLengthRange(cs[i], config);
      assert cs[i..][1..] == cs[i + 1..];
      range.Unite(child);
    }
  }

  method ConcatChildren(cs: seq<Query>, ghost config: Config) returns (range: LengthRange)
    requires QueryWeightSum(cs, config) < UINT32_MAX
    ensures fresh(range) && range.Value() == QueryRangeAll(cs)
    decreases cs
  {
    range := new LengthRange.Between(0, 0);
    ghost var weight: nat := 0;
    QueryRangeStart(cs, config);
    for i := 0 to |cs|
      invariant fresh(range) && !range.IsEmpty()
      invariant QueryRangeSoFar(cs, i, range.Value(), weight, config)
    {
      weight := QueryRangeStep(cs, i, range.Value(), weight, config);
      var child := QueryLengthRange(cs[i], config);
      range.Append(child);
      if range.IsEmpty() {
        return;
      }
    }
    QueryRangeEnd(cs, range.Value(), weight, config);
  }

  /** The range so far and the rest make up the range of the whole. */
  ghost predicate QueryRangeSoFar(cs: seq<Query>, i: nat, r: Range, w: nat, config: Config)
  {
    && i <= |cs|
    && CatRange(r, QueryRangeAll(cs[i..])) == QueryRangeAll(cs)
    && S.Within(r, w)
    && w + QueryWeightSum(cs[i..], config) == QueryWeightSum(cs, config)
  }

  lemma QueryRangeStart(cs: seq<Query>, config: Config)
    ensures QueryRangeSoFar(cs, 0, Range(0, 0), 0, config)
  {
    assert cs[0..] == cs;
  }

  lemma QueryRangeEnd(cs: seq<Query>, r: Range, w: nat, config: Config)
    requires QueryRangeSoFar(cs, |cs|, r, w, config)
    ensures r == QueryRangeAll(cs)
  {
  }

  lemma QueryRangeStep(cs: seq<Query>, i: nat, r: Range, w: nat, config: Config) returns (w': nat)
    requires QueryWeightSum(cs, config) < UINT32_MAX && i < |cs| && QueryRangeSoFar(cs, i, r, w, config) && r.Range?
    ensures QueryWeight(cs[i], config) < UINT32_MAX
    ensures var c := QueryRange(cs[i]);
            && (c.Range? ==> r.min + c.min < UINT32_MAX)
            && (c.Range? && r.max != UINT32_MAX && c.max != UINT32_MAX ==> r.max + c.max < UINT32_MAX)
            && QueryRangeSoFar(cs, i + 1, CatRange(r, c), w', config)
    ensures QueryRange(cs[i]).NoLength? ==> QueryRangeAll(cs).NoLength?
  {
    var c := QueryRange(cs[i]);
    assert cs[i..][1..] == cs[i + 1..];
    QueryRangeWithin(cs[i], config);
    QueryRangeAllWithin(cs[i + 1..], config);
    CatRangeAssoc(r, c, QueryRangeAll(cs[i + 1..]));
    w' := w + QueryWeight(cs[i], config);
    assert S.Within(CatRange(r, c), w') && w' + QueryWeightSum(cs[i + 1..], config) == QueryWeightSum(cs, config);
  }
}
