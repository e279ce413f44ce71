/** The intermediate query tree (src/netspeak/model/SimpleQuery.hpp and .cpp) and what it denotes. */
module SimpleQueries {
  import opened MachineInts
  import opened Languages
  import opened LengthRanges
  import opened Sequences

  type Word = string
  type Phrase = seq<Word>

  /** A regex stands for a set of words, fixed by the regex index. */
  type RegexMeaning = string -> iset<Word>

  datatype Tag = WORD | QMARK | STAR | REGEX | CONCAT | ALTERNATION

  datatype Unit =
    | Word(text: string)
    | QMark
    | Star
    | Regex(text: string)
    | Concat(children: seq<Unit>)
    | Alternation(children: seq<Unit>)
  {
    function Tag(): Tag
    {
      match this
      case Word(_) => WORD
      case QMark => QMARK
      case Star => STAR
      case Regex(_) => REGEX
      case Concat(_) => CONCAT
      case Alternation(_) => ALTERNATION
    }
  }

  predicate RegexFree(u: Unit)
  {
    match u
    case Regex(_) => false
    case Concat(cs) => forall c | c in cs :: RegexFree(c)
    case Alternation(cs) => forall c | c in cs :: RegexFree(c)
    case _ => true
  }

  predicate AllRegexFree(cs: seq<Unit>)
  {
    forall c | c in cs :: RegexFree(c)
  }

  // ---------------------------------------------------------------- meaning

  ghost function RegexPhrases(words: iset<Word>): Language<Word>
  {
    Language(iset p: Phrase | |p| == 1 && p[0] in words)
  }

  /** The phrases a unit accepts. */
  ghost function Lang(u: Unit, R: RegexMeaning): Language<Word>
    decreases u, 1
  {
    match u
    case Word(t) => Just([t])
    case QMark => Singles()
    case Star => All()
    case Regex(t) => RegexPhrases(R(t))
    case Concat(cs) => LangAll(cs, R)
    case Alternation(cs) => LangAny(cs, R)
  }

  ghost function LangAll(cs: seq<Unit>, R: RegexMeaning): Language<Word>
    decreases cs, 0
  {
    if cs == [] then Epsilon() else Cat(Lang(cs[0], R), LangAll(cs[1..], R))
  }

  ghost function LangAny(cs: seq<Unit>, R: RegexMeaning): Language<Word>
    decreases cs, 0
  {
    if cs == [] then Nothing() else Union(Lang(cs[0], R), LangAny(cs[1..], R))
  }

  /** Two trees accept the same phrases however the regex index reads the regexes. */
  ghost predicate Equivalent(u: Unit, v: Unit)
  {
    forall R: RegexMeaning :: Lang(u, R) == Lang(v, R)
  }

  lemma {:induction false} LangAllAppend(a: seq<Unit>, b: seq<Unit>, R: RegexMeaning)
    ensures LangAll(a + b, R) == Cat(LangAll(a, R), LangAll(b, R))
  {
    if a == [] {
      EmptyLeft(b);
      EpsilonCat(LangAll(b, R));
    } else {
      LangAllAppend(a[1..], b, R);
      CatAssoc(Lang(a[0], R), LangAll(a[1..], R), LangAll(b, R));
      TailOfAppend(a, b);
    }
  }

  lemma {:induction false} LangAnyAppend(a: seq<Unit>, b: seq<Unit>, R: RegexMeaning)
    ensures LangAny(a + b, R) == Union(LangAny(a, R), LangAny(b, R))
  {
    if a == [] {
      assert a + b == b;
    } else {
      LangAnyAppend(a[1..], b, R);
      assert (a + b)[1..] == a[1..] + b;
    }
  }

  lemma LangAllOne(u: Unit, R: RegexMeaning)
    ensures LangAll([u], R) == Lang(u, R)
  {
    assert [u][1..] == [];
    CatEpsilon(Lang(u, R));
  }

  /** A concatenation with a part that accepts nothing accepts nothing. */
  lemma {:induction false} LangAllNothing(cs: seq<Unit>, i: nat, R: RegexMeaning)
    requires i < |cs| && Lang(cs[i], R) == Nothing()
    ensures LangAll(cs, R) == Nothing()
  {
    if i == 0 {
      CatNothing(LangAll(cs[1..], R));
    } else {
      LangAllNothing(cs[1..], i - 1, R);
      CatNothing(Lang(cs[0], R));
    }
  }

  /** A unit for each word. */
  function WordUnits(words: seq<Word>): seq<Unit>
  {
    if words == [] then [] else WordUnits(words[..|words| - 1]) + [Word(words[|words| - 1])]
  }

  lemma {:induction false} WordUnitsAreWords(words: seq<Word>)
    ensures forall u :: u in WordUnits(words) ==> u.Word?
    ensures |WordUnits(words)| == |words|
    ensures forall i :: 0 <= i < |words| ==> WordUnits(words)[i] == Word(words[i])
  {
    if words != [] {
      WordUnitsAreWords(words[..|words| - 1]);
    }
  }

  /** A concatenation of words accepts just their phrase. */
  lemma PhraseSnoc(us: seq<Unit>, words: seq<Word>, w: Word, R: RegexMeaning)
    requires LangAll(us, R) == Just(words)
    ensures LangAll(us + [Word(w)], R) == Just(words + [w])
  {
    LangAllAppend(us, [Word(w)], R);
    LangAllOne(Word(w), R);
    CatJust(words, [w]);
  }

  lemma {:induction false} PhraseOfWords(words: seq<Word>, R: RegexMeaning)
    ensures LangAll(WordUnits(words), R) == Just(words)
  {
    if words != [] {
      var front, last := words[..|words| - 1], words[|words| - 1];
      PhraseOfWords(front, R);
      PhraseSnoc(WordUnits(front), front, last, R);
      InitAndLast(words);
    }
  }

  // ---------------------------------------------------------------- lengths

  /** The most fixed words any path through a tree has. Below UINT32_MAX, no 32-bit length sum wraps. */
  function Weight(u: Unit): nat
    decreases u, 1
  {
    match u
    case Star => 0
    case Word(_) => 1
    case QMark => 1
    case Regex(_) => 1
    case Concat(cs) => WeightSum(cs)
    case Alternation(cs) => WeightMax(cs)
  }

  function WeightSum(cs: seq<Unit>): nat
    decreases cs, 0
  {
    if cs == [] then 0 else Weight(cs[0]) + WeightSum(cs[1..])
  }

  function WeightMax(cs: seq<Unit>): nat
    decreases cs, 0
  {
    if cs == [] then 0 else Max(Weight(cs[0]), WeightMax(cs[1..]))
  }

  lemma {:induction false} WeightOfChild(cs: seq<Unit>, i: nat)
    requires i < |cs|
    ensures Weight(cs[i]) <= WeightMax(cs) <= WeightSum(cs)
  {
    WeightMaxSum(cs);
    if i > 0 {
      WeightOfChild(cs[1..], i - 1);
    }
  }

  lemma {:induction false} WeightMaxSum(cs: seq<Unit>)
    ensures WeightMax(cs) <= WeightSum(cs)
  {
    if cs != [] {
      WeightMaxSum(cs[1..]);
    }
  }

  lemma {:induction false} WeightSumAppend(a: seq<Unit>, b: seq<Unit>)
    ensures WeightSum(a + b) == WeightSum(a) + WeightSum(b)
  {
    if a == [] {
      assert a + b == b;
    } else {
      WeightSumAppend(a[1..], b);
      assert (a + b)[1..] == a[1..] + b;
    }
  }

  lemma {:induction false} WeightOfWords(words: seq<Word>)
    ensures WeightSum(WordUnits(words)) == |words|
  {
    if words != [] {
      WeightOfWords(words[..|words| - 1]);
      WeightSumAppend(WordUnits(words[..|words| - 1]), [Word(words[|words| - 1])]);
      assert [Word(words[|words| - 1])][1..] == [];
    }
  }

  lemma {:induction false} WeightMaxAppend(a: seq<Unit>, b: seq<Unit>)
    ensures WeightMax(a + b) == Max(WeightMax(a), WeightMax(b))
  {
    if a == [] {
      assert a + b == b;
    } else {
      WeightMaxAppend(a[1..], b);
      assert (a + b)[1..] == a[1..] + b;
    }
  }

  /** The range of lengths of accepted phrases. */
  function RangeOf(u: Unit): Range
    decreases u, 1
  {
    match u
    case Star => Range(0, UINT32_MAX)
    case Word(_) => Range(1, 1)
    case QMark => Range(1, 1)
    case Regex(_) => Range(1, 1)
    case Concat(cs) => RangeOfAll(cs)
    case Alternation(cs) => RangeOfAny(cs)
  }

  function RangeOfAll(cs: seq<Unit>): Range
    decreases cs, 0
  {
    if cs == [] then Range(0, 0) else CatRange(RangeOf(cs[0]), RangeOfAll(cs[1..]))
  }

  function RangeOfAny(cs: seq<Unit>): Range
    decreases cs, 0
  {
    if cs == [] then NoLength else UniteRange(RangeOf(cs[0]), RangeOfAny(cs[1..]))
  }

  ghost predicate Within(r: Range, w: nat)
  {
    r.Range? ==> r.min <= w && r.min <= r.max && (r.max <= w || r.max == UINT32_MAX)
  }

  lemma {:induction false} RangeWithinWeight(u: Unit)
    requires Weight(u) < UINT32_MAX
    ensures Within(RangeOf(u), Weight(u))
    decreases u, 1
  {
    match u
    case Concat(cs) => RangeOfAllWithin(cs);
    case Alternation(cs) => RangeOfAnyWithin(cs);
    case _ =>
  }

  lemma {:induction false} RangeOfAllWithin(cs: seq<Unit>)
    requires WeightSum(cs) < UINT32_MAX
    ensures Within(RangeOfAll(cs), WeightSum(cs))
    decreases cs, 0
  {
    if cs != [] {
      RangeWithinWeight(cs[0]);
      RangeOfAllWithin(cs[1..]);
    }
  }

  lemma {:induction false} RangeOfAnyWithin(cs: seq<Unit>)
    requires WeightMax(cs) < UINT32_MAX
    ensures Within(RangeOfAny(cs), WeightMax(cs))
    decreases cs, 0
  {
    if cs != [] {
      RangeWithinWeight(cs[0]);
      RangeOfAnyWithin(cs[1..]);
    }
  }

  /** r covers the length of every member of A. */
  ghost predicate Covers(r: Range, A: Language<Word>)
  {
    forall p :: Has(A, p) ==> r.Range? && r.min <= |p| && (r.max == UINT32_MAX || |p| <= r.max)
  }

  /** Both ends of r are attained in A: the shortest length, and either the longest one or arbitrarily long ones. */
  ghost predicate Attained(r: Range, A: Language<Word>)
  {
    r.Range? ==>
      && (exists p :: Has(A, p) && |p| == r.min)
      && (r.max != UINT32_MAX ==> exists p :: Has(A, p) && |p| == r.max)
      && (r.max == UINT32_MAX ==> forall n: nat :: ReachesLength(A, n))
  }

  ghost predicate ReachesLength(A: Language<Word>, n: nat)
  {
    exists p :: Has(A, p) && |p| >= n
  }

  lemma {:induction false} RangeCovers(u: Unit, R: RegexMeaning)
    requires Weight(u) < UINT32_MAX
    ensures Covers(RangeOf(u), Lang(u, R))
    decreases u, 1
  {
    match u
    case Concat(cs) => RangeOfAllCovers(cs, R);
    case Alternation(cs) => RangeOfAnyCovers(cs, R);
    case _ =>
  }

  lemma {:induction false} RangeOfAllCovers(cs: seq<Unit>, R: RegexMeaning)
    requires WeightSum(cs) < UINT32_MAX
    ensures Covers(RangeOfAll(cs), LangAll(cs, R))
    decreases cs, 0
  {
    if cs != [] {
      RangeCovers(cs[0], R);
      RangeOfAllCovers(cs[1..], R);
      RangeWithinWeight(cs[0]);
      RangeOfAllWithin(cs[1..]);
      CatCovers(RangeOf(cs[0]), RangeOfAll(cs[1..]), Lang(cs[0], R), LangAll(cs[1..], R));
    }
  }

  lemma CatCovers(a: Range, b: Range, A: Language<Word>, B: Language<Word>)
    requires Covers(a, A) && Covers(b, B)
    requires a.Range? && b.Range? && a.max != UINT32_MAX && b.max != UINT32_MAX ==> a.max + b.max < UINT32_MAX
    ensures Covers(CatRange(a, b), Cat(A, B))
  {
    forall p | Has(Cat(A, B), p)
      ensures a.Range? && b.Range?
      ensures var r := CatRange(a, b); r.min <= |p| && (r.max == UINT32_MAX || |p| <= r.max)
    {
      var x, y := CatElim(p, A, B);
    }
  }

  lemma {:induction false} RangeOfAnyCovers(cs: seq<Unit>, R: RegexMeaning)
    requires WeightMax(cs) < UINT32_MAX
    ensures Covers(RangeOfAny(cs), LangAny(cs, R))
    decreases cs, 0
  {
    if cs != [] {
      RangeCovers(cs[0], R);
      RangeOfAnyCovers(cs[1..], R);
      UnionHas(Lang(cs[0], R), LangAny(cs[1..], R));
      RangeWithinWeight(cs[0]);
      RangeOfAnyWithin(cs[1..]);
    }
  }

  lemma {:induction false} RangeAttained(u: Unit, R: RegexMeaning)
    requires Weight(u) < UINT32_MAX
    requires forall t :: R(t) != iset{}
    ensures Attained(RangeOf(u), Lang(u, R))
    decreases u, 1
  {
    match u
    case Concat(cs) => RangeOfAllAttained(cs, R);
    case Alternation(cs) => RangeOfAnyAttained(cs, R);
    case Star =>
      assert Has(Lang(u, R), []);
      forall n: nat
        ensures ReachesLength(Lang(u, R), n)
      {
        var p: Phrase := seq(n, i => "");
        assert Has(Lang(u, R), p);
      }
    case Word(t) =>
      assert Has(Lang(u, R), [t]);
    case QMark =>
      var p: Phrase := [""];
      assert Has(Lang(u, R), p);
    case Regex(t) =>
      var w :| w in R(t);
      assert Has(Lang(u, R), [w]);
  }

  lemma {:induction false} RangeOfAllAttained(cs: seq<Unit>, R: RegexMeaning)
    requires WeightSum(cs) < UINT32_MAX
    requires forall t :: R(t) != iset{}
    ensures Attained(RangeOfAll(cs), LangAll(cs, R))
    decreases cs, 0
  {
    if cs == [] {
      var p: Phrase := [];
      assert Has(LangAll(cs, R), p);
    } else {
      RangeAttained(cs[0], R);
      RangeOfAllAttained(cs[1..], R);
      RangeWithinWeight(cs[0]);
      RangeOfAllWithin(cs[1..]);
      CatAttained(RangeOf(cs[0]), RangeOfAll(cs[1..]), Lang(cs[0], R), LangAll(cs[1..], R));
    }
  }

  lemma CatAttained(a: Range, b: Range, A: Language<Word>, B: Language<Word>)
    requires Attained(a, A) && Attained(b, B)
    requires a.Range? && b.Range? && a.max != UINT32_MAX && b.max != UINT32_MAX ==> a.max + b.max < UINT32_MAX
    ensures Attained(CatRange(a, b), Cat(A, B))
  {
    if a.Range? && b.Range? {
      var x :| Has(A, x) && |x| == a.min;
      var y :| Has(B, y) && |y| == b.min;
      CatIntro(x, y, A, B);
      assert |x + y| == a.min + b.min;
      if a.max != UINT32_MAX && b.max != UINT32_MAX {
        var x' :| Has(A, x') && |x'| == a.max;
        var y' :| Has(B, y') && |y'| == b.max;
        CatIntro(x', y', A, B);
        assert |x' + y'| == a.max + b.max;
      } else {
        forall n: nat
          ensures ReachesLength(Cat(A, B), n)
        {
          if a.max == UINT32_MAX {
            assert ReachesLength(A, n);
            var x' :| Has(A, x') && |x'| >= n;
            CatIntro(x', y, A, B);
            assert |x' + y| >= n;
          } else {
            assert ReachesLength(B, n);
            var y' :| Has(B, y') && |y'| >= n;
            CatIntro(x, y', A, B);
            assert |x + y'| >= n;
          }
        }
      }
    }
  }

  lemma {:induction false} RangeOfAnyAttained(cs: seq<Unit>, R: RegexMeaning)
    requires WeightMax(cs) < UINT32_MAX
    requires forall t :: R(t) != iset{}
    ensures Attained(RangeOfAny(cs), LangAny(cs, R))
    decreases cs, 0
  {
    if cs != [] {
      RangeAttained(cs[0], R);
      RangeOfAnyAttained(cs[1..], R);
      RangeWithinWeight(cs[0]);
      RangeOfAnyWithin(cs[1..]);
      UniteAttained(RangeOf(cs[0]), RangeOfAny(cs[1..]), Lang(cs[0], R), LangAny(cs[1..], R));
    }
  }

  lemma UniteAttained(a: Range, b: Range, A: Language<Word>, B: Language<Word>)
    requires Attained(a, A) && Attained(b, B)
    requires a.Range? ==> a.max <= UINT32_MAX
    requires b.Range? ==> b.max <= UINT32_MAX
    ensures Attained(UniteRange(a, b), Union(A, B))
  {
    UnionHas(A, B);
    forall n: nat | ReachesLength(A, n) || ReachesLength(B, n)
      ensures ReachesLength(Union(A, B), n)
    {
      var p :| (Has(A, p) || Has(B, p)) && |p| >= n;
      assert Has(Union(A, B), p);
    }
  }

  lemma EmptyExactly(r: Range, A: Language<Word>)
    requires Covers(r, A) && Attained(r, A)
    ensures r.NoLength? <==> A == Nothing()
  {
    if r.NoLength? {
      Extensional(A, Nothing());
    } else {
      var p :| Has(A, p) && |p| == r.min;
      assert !Has(Nothing(), p);
    }
  }

  /** length_range is exact: it accepts no length that is too short or too long, its ends are attained,
      and it is empty just when the unit accepts no phrase. */
  lemma RangeExact(u: Unit, R: RegexMeaning)
    requires Weight(u) < UINT32_MAX
    requires forall t :: R(t) != iset{}
    ensures Covers(RangeOf(u), Lang(u, R)) && Attained(RangeOf(u), Lang(u, R))
    ensures RangeOf(u).NoLength? <==> Lang(u, R) == Nothing()
  {
    RangeCovers(u, R);
    RangeAttained(u, R);
    EmptyExactly(RangeOf(u), Lang(u, R));
  }

  /** `length_range`, by loops that narrow or widen one range object. */
  method LengthRangeOf(u: Unit) returns (range: LengthRange)
    requires Weight(u) < UINT32_MAX
    ensures fresh(range) && range.Value() == RangeOf(u)
    decreases u
  {
    if u.Star? {
      range := new LengthRange.Between(0, UINT32_MAX);
    } else if u.Alternation? {
      range := UniteChildren(u.children);
    } else if u.Concat? {
      range := ConcatChildren(u.children);
    } else {
      range := new LengthRange.Between(1, 1);
    }
  }

  method UniteChildren(cs: seq<Unit>) returns (range: LengthRange)
    requires WeightMax(cs) < UINT32_MAX
    ensures fresh(range) && range.Value() == RangeOfAny(cs)
    decreases cs
  {
    range := new LengthRange.Empty();
    assert cs[0..] == cs;
    for i := 0 to |cs|
      invariant fresh(range)
      invariant UniteRange(range.Value(), RangeOfAny(cs[i..])) == RangeOfAny(cs)
    {
      WeightOfChild(cs, i);
      var child := LengthRangeOf(cs[i]);
      DropNext(cs, i);
      range.Unite(child);
    }
  }

  method ConcatChildren(cs: seq<Unit>) returns (range: LengthRange)
    requires WeightSum(cs) < UINT32_MAX
    ensures fresh(range) && range.Value() == RangeOfAll(cs)
    decreases cs
  {
    range := new LengthRange.Between(0, 0);
    RangeStart(cs);
    for i := 0 to |cs|
      invariant fresh(range) && !range.IsEmpty()
      invariant RangeSoFar(cs, i, range.Value())
    {
      RangeStep(cs, i, range.Value());
      var child := LengthRangeOf(cs[i]);
      range.Append(child);
      if range.IsEmpty() {
        return;
      }
    }
    RangeEnd(cs, range.Value());
  }

  /** The range so far and the rest make up the range of the whole. */
  ghost predicate RangeSoFar(cs: seq<Unit>, i: nat, r: Range)
  {
    && i <= |cs|
    && CatRange(r, RangeOfAll(cs[i..])) == RangeOfAll(cs)
    && Within(r, WeightSum(cs[..i]))
    && WeightSum(cs[..i]) + WeightSum(cs[i..]) == WeightSum(cs)
  }

  lemma RangeStart(cs: seq<Unit>)
    ensures RangeSoFar(cs, 0, Range(0, 0))
  {
    assert cs[0..] == cs;
  }

  lemma RangeEnd(cs: seq<Unit>, r: Range)
    requires RangeSoFar(cs, |cs|, r)
    ensures r == RangeOfAll(cs)
  {
  }

  lemma WeightSumNext(cs: seq<Unit>, i: nat)
    requires i < |cs|
    ensures WeightSum(cs[..i + 1]) == WeightSum(cs[..i]) + Weight(cs[i])
    ensures WeightSum(cs[i..]) == Weight(cs[i]) + WeightSum(cs[i + 1..])
  {
    TakeNext(cs, i);
    WeightSumAppend(cs[..i], [cs[i]]);
    DropNext(cs, i);
  }

  lemma RangeStep(cs: seq<Unit>, i: nat, r: Range)
    requires WeightSum(cs) < UINT32_MAX && i < |cs| && RangeSoFar(cs, i, r) && r.Range?
    ensures Weight(cs[i]) < UINT32_MAX
    ensures var c := RangeOf(cs[i]);
            && (c.Range? ==> r.min + c.min < UINT32_MAX)
            && (c.Range? && r.max != UINT32_MAX && c.max != UINT32_MAX ==> r.max + c.max < UINT32_MAX)
            && RangeSoFar(cs, i + 1, CatRange(r, c))
    ensures RangeOf(cs[i]).NoLength? ==> RangeOfAll(cs).NoLength?
  {
    WeightSumNext(cs, i);
    DropNext(cs, i);
    RangeWithinWeight(cs[i]);
    RangeOfAllWithin(cs[i + 1..]);
    CatRangeAssoc(r, RangeOf(cs[i]), RangeOfAll(cs[i + 1..]));
  }

  /** The shortest accepted length, or UINT32_MAX when nothing is accepted. */
  function MinLen(u: Unit): nat
  {
    if RangeOf(u).NoLength? then UINT32_MAX else RangeOf(u).min
  }

  function SumOfMins(cs: seq<Unit>): nat
  {
    if RangeOfAll(cs).NoLength? then UINT32_MAX else RangeOfAll(cs).min
  }

  function LeastOfMins(cs: seq<Unit>): nat
  {
    if RangeOfAny(cs).NoLength? then UINT32_MAX else RangeOfAny(cs).min
  }

  lemma SumOfMinsCons(cs: seq<Unit>)
    requires cs != [] && WeightSum(cs) < UINT32_MAX
    ensures MinLen(cs[0]) == UINT32_MAX || MinLen(cs[0]) <= Weight(cs[0])
    ensures SumOfMins(cs[1..]) == UINT32_MAX || SumOfMins(cs[1..]) <= WeightSum(cs[1..])
    ensures SumOfMins(cs) == if MinLen(cs[0]) == UINT32_MAX || SumOfMins(cs[1..]) == UINT32_MAX then UINT32_MAX
                             else MinLen(cs[0]) + SumOfMins(cs[1..])
  {
    RangeWithinWeight(cs[0]);
    RangeOfAllWithin(cs[1..]);
  }

  lemma WeightMaxOfRest(cs: seq<Unit>, i: nat)
    requires i <= |cs|
    ensures WeightMax(cs[i..]) <= WeightMax(cs)
  {
    assert cs[..i] + cs[i..] == cs;
    WeightMaxAppend(cs[..i], cs[i..]);
  }

  lemma WeightSumOfFront(cs: seq<Unit>, i: nat)
    requires i <= |cs|
    ensures WeightSum(cs[..i]) <= WeightSum(cs)
  {
    assert cs[..i] + cs[i..] == cs;
    WeightSumAppend(cs[..i], cs[i..]);
  }

  lemma LeastStep(cs: seq<Unit>, i: nat, min: nat)
    requires i < |cs| && WeightMax(cs) < UINT32_MAX
    requires LeastOfMins(cs) == Min(min, LeastOfMins(cs[i..]))
    ensures LeastOfMins(cs) == Min(Min(min, MinLen(cs[i])), LeastOfMins(cs[i + 1..]))
    ensures Weight(cs[i]) < UINT32_MAX
  {
    WeightOfChild(cs, i);
    RangeWithinWeight(cs[i]);
    DropNext(cs, i);
    WeightMaxOfRest(cs, i + 1);
    RangeOfAnyWithin(cs[i + 1..]);
  }

  /** The sum so far and the rest of a concatenation make up the whole, and stay in 32 bits. */
  ghost predicate SumSoFar(cs: seq<Unit>, i: nat, min: nat)
  {
    && i <= |cs|
    && min <= WeightSum(cs[..i])
    && WeightSum(cs[..i]) <= WeightSum(cs)
    && SumOfMins(cs) == if RangeOfAll(cs[i..]).NoLength? then UINT32_MAX else min + SumOfMins(cs[i..])
  }

  lemma SumStep(cs: seq<Unit>, i: nat, min: nat)
    requires i < |cs| && WeightSum(cs) < UINT32_MAX && SumSoFar(cs, i, min)
    ensures Weight(cs[i]) < UINT32_MAX
    ensures if MinLen(cs[i]) == UINT32_MAX then SumOfMins(cs) == UINT32_MAX else SumSoFar(cs, i + 1, min + MinLen(cs[i]))
  {
    WeightOfChild(cs, i);
    RangeWithinWeight(cs[i]);
    DropNext(cs, i);
    WeightSumNext(cs, i);
    WeightSumOfFront(cs, i + 1);
  }

  /** `min_length`, with its early exits; it always equals the lower end of `length_range`. */
  method MinLength(u: Unit) returns (min: uint32)
    requires Weight(u) < UINT32_MAX
    ensures min == MinLen(u)
    decreases u
  {
    match u
    case Star => return 0;
    case Word(_) => return 1;
    case QMark => return 1;
    case Regex(_) => return 1;
    case Alternation(cs) => min := LeastMinLength(cs);
    case Concat(cs) => min := TotalMinLength(cs);
  }

  method LeastMinLength(cs: seq<Unit>) returns (min: uint32)
    requires WeightMax(cs) < UINT32_MAX
    ensures min == LeastOfMins(cs)
    decreases cs
  {
    min := UINT32_MAX;
    RangeOfAnyWithin(cs);
    assert cs[0..] == cs;
    for i := 0 to |cs|
      invariant LeastOfMins(cs) == Min(min, LeastOfMins(cs[i..]))
    {
      LeastStep(cs, i, min);
      var childMin := MinLength(cs[i]);
      if childMin < min {
        if childMin == 0 {
          return 0;
        }
        min := childMin;
      }
    }
  }

  method TotalMinLength(cs: seq<Unit>) returns (min: uint32)
    requires WeightSum(cs) < UINT32_MAX
    ensures min == SumOfMins(cs)
    decreases cs
  {
    min := 0;
    assert cs[0..] == cs;
    for i := 0 to |cs|
      invariant SumSoFar(cs, i, min)
    {
      SumStep(cs, i, min);
      var childMin := MinLength(cs[i]);
      if childMin == UINT32_MAX {
        return UINT32_MAX;
      }
      min := min + childMin;
    }
  }
}
