/** StarQuery and StarQueryConverter (src/netspeak/QueryNormalizer.cpp): a tree as a list of flat queries with stars. */
module StarQueries {
  import opened MachineInts
  import opened Languages
  import opened SimpleQueries
  import opened Sequences
  import opened Traces

  datatype StarUnit = SWord(text: string) | SQMark | SStar

  function CountFixed(units: seq<StarUnit>): nat
  {
    if units == [] then 0 else CountFixed(units[..|units| - 1]) + (if units[|units| - 1].SStar? then 0 else 1)
  }

  datatype StarQuery = StarQuery(units: seq<StarUnit>, minLength: nat)
  {
    /** The cached length is the number of units other than stars. */
    predicate Valid()
    {
      minLength == CountFixed(units)
    }

    function PushBack(u: StarUnit): (r: StarQuery)
      ensures Valid() ==> r.Valid()
    {
      assert (units + [u])[..|units|] == units;
      StarQuery(units + [u], if u.SStar? then minLength else minLength + 1)
    }

    function Append(query: StarQuery): (r: StarQuery)
      ensures Valid() && query.Valid() ==> r.Valid()
    {
      CountFixedAppend(units, query.units);
      StarQuery(units + query.units, minLength + query.minLength)
    }

    predicate HasStar()
    {
      SStar in units
    }

    /** `max_length`: UINT32_MAX as soon as there is a star. */
    method MaxLength() returns (max: nat)
      requires Valid() && minLength < UINT32_MAX
      ensures max == if HasStar() then UINT32_MAX else minLength
    {
      max := 0;
      for i := 0 to |units|
        invariant SStar !in units[..i] && max == i == CountFixed(units[..i])
      {
        assert units[..i + 1][..i] == units[..i];
        if units[i].SStar? {
          return UINT32_MAX;
        } else {
          max := max + 1;
        }
      }
      assert units[..|units|] == units;
    }
  }

  const EMPTY: StarQuery := StarQuery([], 0)

  lemma {:induction false} CountFixedAppend(a: seq<StarUnit>, b: seq<StarUnit>)
    ensures CountFixed(a + b) == CountFixed(a) + CountFixed(b)
  {
    if b == [] {
      assert a + b == a;
    } else {
      CountFixedAppend(a, b[..|b| - 1]);
      assert (a + b)[..|a + b| - 1] == a + b[..|b| - 1];
    }
  }

  // ---------------------------------------------------------------- traces of star queries

  ghost function StarUnitTraces(u: StarUnit): Language<Step>
  {
    match u
    case SWord(t) => Just([Step(t, true)])
    case SQMark => AnyFixedStep()
    case SStar => Fillings()
  }

  ghost function UnitsTraces(units: seq<StarUnit>): Language<Step>
  {
    if units == [] then Epsilon()
    else Cat(StarUnitTraces(units[0]), UnitsTraces(units[1..]))
  }

  /** The traces of all queries of a list. */
  ghost function ListTraces(queries: seq<StarQuery>): Language<Step>
  {
    if queries == [] then Nothing()
    else Union(UnitsTraces(queries[0].units), ListTraces(queries[1..]))
  }

  lemma {:induction false} UnitsTracesAppend(a: seq<StarUnit>, b: seq<StarUnit>)
    ensures UnitsTraces(a + b) == Cat(UnitsTraces(a), UnitsTraces(b))
  {
    if a == [] {
      assert a + b == b;
      EpsilonCat(UnitsTraces(b));
    } else {
      UnitsTracesAppend(a[1..], b);
      assert (a + b)[1..] == a[1..] + b;
      CatAssoc(StarUnitTraces(a[0]), UnitsTraces(a[1..]), UnitsTraces(b));
    }
  }

  lemma UnitsTracesOne(u: StarUnit)
    ensures UnitsTraces([u]) == StarUnitTraces(u)
  {
    assert [u][1..] == [];
    CatEpsilon(StarUnitTraces(u));
  }

  lemma {:induction false} ListTracesAppend(a: seq<StarQuery>, b: seq<StarQuery>)
    ensures ListTraces(a + b) == Union(ListTraces(a), ListTraces(b))
  {
    if a == [] {
      assert a + b == b;
      UnionNothing(ListTraces(b));
    } else {
      ListTracesAppend(a[1..], b);
      assert (a + b)[1..] == a[1..] + b;
      UnionAssoc(UnitsTraces(a[0].units), ListTraces(a[1..]), ListTraces(b));
    }
  }

  lemma ListTracesOne(q: StarQuery)
    ensures ListTraces([q]) == UnitsTraces(q.units)
  {
    assert [q][1..] == [];
    UnionNothing(UnitsTraces(q.units));
  }

  /** A trace of a star query has exactly as many fixed places as the query. */
  lemma {:induction false} FixedCountOfTrace(units: seq<StarUnit>, s: Trace)
    requires Has(UnitsTraces(units), s)
    ensures FixedCount(s) == CountFixed(units)
  {
    if units != [] {
      var a, b := CatElim(s, StarUnitTraces(units[0]), UnitsTraces(units[1..]));
      FixedCountOfTrace(units[1..], b);
      WordsAppend(a, b);
      assert units == [units[0]] + units[1..];
      CountFixedAppend([units[0]], units[1..]);
      if units[0].SStar? {
        FillingCount(a);
      }
      assert [units[0]][..0] == [];
    }
  }

  lemma LongQueryHasNoShortTrace(q: StarQuery, limit: nat)
    requires q.Valid() && q.minLength > limit
    ensures Upto(UnitsTraces(q.units), limit) == Nothing()
  {
    forall s | Has(UnitsTraces(q.units), s)
      ensures |s| > limit
    {
      FixedCountOfTrace(q.units, s);
    }
    Extensional(Upto(UnitsTraces(q.units), limit), Nothing());
  }

  // ---------------------------------------------------------------- the expansion, as functions

  /** The star unit for a word, a question mark or a star. */
  function LeafOf(u: Unit): StarUnit
    requires u.Word? || u.QMark? || u.Star?
  {
    match u
    case Word(t) => SWord(t)
    case QMark => SQMark
    case Star => SStar
  }

  function PushAll(queries: seq<StarQuery>, u: StarUnit): seq<StarQuery>
  {
    if queries == [] then [] else [queries[0].PushBack(u)] + PushAll(queries[1..], u)
  }

  function AppendAll(queries: seq<StarQuery>, q: StarQuery): seq<StarQuery>
  {
    if queries == [] then [] else [queries[0].Append(q)] + AppendAll(queries[1..], q)
  }

  /** before followed by each of after, without those that are too long. */
  function Row(before: StarQuery, after: seq<StarQuery>, limit: nat): seq<StarQuery>
  {
    if after == [] then []
    else (if before.minLength + after[0].minLength > limit then [] else [before.Append(after[0])]) + Row(before, after[1..], limit)
  }

  function Product(before: seq<StarQuery>, after: seq<StarQuery>, limit: nat): seq<StarQuery>
  {
    if before == [] then [] else Row(before[0], after, limit) + Product(before[1..], after, limit)
  }

  function AppendAlternatives(queries: seq<StarQuery>, alt: seq<StarQuery>, limit: nat): seq<StarQuery>
  {
    if |alt| == 0 then []
    else if |alt| == 1 then AppendAll(queries, alt[0])
    else Product(queries, alt, limit)
  }

  function ShortEnough(queries: seq<StarQuery>, limit: nat): seq<StarQuery>
  {
    if queries == [] then []
    else (if queries[0].minLength <= limit then [queries[0]] else []) + ShortEnough(queries[1..], limit)
  }

  /** The star queries of a unit. */
  function StarQueriesOf(u: Unit, limit: nat): seq<StarQuery>
    requires RegexFree(u)
    decreases u, 1
  {
    match u
    case Alternation(cs) => StarQueriesOfAny(cs, limit)
    case Concat(cs) => ShortEnough(ExtendAll([EMPTY], cs, limit), limit)
    case _ => [EMPTY.PushBack(LeafOf(u))]
  }

  function StarQueriesOfAny(cs: seq<Unit>, limit: nat): seq<StarQuery>
    requires AllRegexFree(cs)
    decreases cs, 0
  {
    if cs == [] then [] else StarQueriesOf(cs[0], limit) + StarQueriesOfAny(cs[1..], limit)
  }

  /** The given star queries, continued by a unit. */
  function Extend(queries: seq<StarQuery>, u: Unit, limit: nat): seq<StarQuery>
    requires RegexFree(u)
    decreases u, 1
  {
    match u
    case Alternation(cs) => AppendAlternatives(queries, StarQueriesOfAny(cs, limit), limit)
    case Concat(cs) => ExtendAll(queries, cs, limit)
    case _ => PushAll(queries, LeafOf(u))
  }

  function ExtendAll(queries: seq<StarQuery>, cs: seq<Unit>, limit: nat): seq<StarQuery>
    requires AllRegexFree(cs)
    decreases cs, 0
  {
    if cs == [] then queries else ExtendAll(Extend(queries, cs[0], limit), cs[1..], limit)
  }

  ghost predicate AllValid(queries: seq<StarQuery>)
  {
    forall i :: 0 <= i < |queries| ==> queries[i].Valid()
  }

  // ---------------------------------------------------------------- the expansion keeps the traces

  lemma ListTracesCons(q: StarQuery, rest: seq<StarQuery>)
    ensures ListTraces([q] + rest) == Union(UnitsTraces(q.units), ListTraces(rest))
  {
    assert ([q] + rest)[1..] == rest;
  }

  lemma {:induction false} PushAllValid(queries: seq<StarQuery>, u: StarUnit)
    requires AllValid(queries)
    ensures AllValid(PushAll(queries, u))
  {
    if queries != [] {
      PushAllValid(queries[1..], u);
    }
  }

  lemma {:induction false} PushAllTraces(queries: seq<StarQuery>, u: StarUnit)
    ensures ListTraces(PushAll(queries, u)) == Cat(ListTraces(queries), StarUnitTraces(u))
  {
    var U := StarUnitTraces(u);
    if queries == [] {
      CatNothing(U);
    } else {
      var q, rest := queries[0], queries[1..];
      PushAllTraces(rest, u);
      CatUnionLeft(UnitsTraces(q.units), ListTraces(rest), U);
      UnitsTracesOne(u);
      UnitsTracesAppend(q.units, [u]);
      ListTracesCons(q.PushBack(u), PushAll(rest, u));
    }
  }

  lemma {:induction false} AppendAllValid(queries: seq<StarQuery>, a: StarQuery)
    requires AllValid(queries) && a.Valid()
    ensures AllValid(AppendAll(queries, a))
  {
    if queries != [] {
      AppendAllValid(queries[1..], a);
    }
  }

  lemma {:induction false} AppendAllTraces(queries: seq<StarQuery>, a: StarQuery)
    ensures ListTraces(AppendAll(queries, a)) == Cat(ListTraces(queries), UnitsTraces(a.units))
  {
    var U := UnitsTraces(a.units);
    if queries == [] {
      CatNothing(U);
    } else {
      var q, rest := queries[0], queries[1..];
      AppendAllTraces(rest, a);
      CatUnionLeft(UnitsTraces(q.units), ListTraces(rest), U);
      UnitsTracesAppend(q.units, a.units);
      ListTracesCons(q.Append(a), AppendAll(rest, a));
    }
  }

  lemma RowHeadTraces(q: StarQuery, a: StarQuery, limit: nat, head: seq<StarQuery>)
    requires q.Valid() && a.Valid()
    requires head == if q.minLength + a.minLength > limit then [] else [q.Append(a)]
    ensures Upto(ListTraces(head), limit) == Upto(Cat(UnitsTraces(q.units), UnitsTraces(a.units)), limit)
  {
    UnitsTracesAppend(q.units, a.units);
    if head == [] {
      LongQueryHasNoShortTrace(q.Append(a), limit);
      Extensional(Upto(ListTraces(head), limit), Nothing());
    } else {
      ListTracesOne(q.Append(a));
    }
  }

  lemma {:induction false} RowValid(q: StarQuery, after: seq<StarQuery>, limit: nat)
    requires q.Valid() && AllValid(after)
    ensures AllValid(Row(q, after, limit))
  {
    if after != [] {
      RowValid(q, after[1..], limit);
    }
  }

  lemma {:induction false} RowTraces(q: StarQuery, after: seq<StarQuery>, limit: nat)
    requires q.Valid() && AllValid(after)
    ensures Upto(ListTraces(Row(q, after, limit)), limit) == Upto(Cat(UnitsTraces(q.units), ListTraces(after)), limit)
  {
    var Q := UnitsTraces(q.units);
    if after == [] {
      CatNothing(Q);
    } else {
      var A, B := UnitsTraces(after[0].units), ListTraces(after[1..]);
      var head := if q.minLength + after[0].minLength > limit then [] else [q.Append(after[0])];
      var tail := Row(q, after[1..], limit);
      RowTraces(q, after[1..], limit);
      RowHeadTraces(q, after[0], limit, head);
      ListTracesAppend(head, tail);
      UptoUnion(ListTraces(head), ListTraces(tail), limit);
      UptoUnion(Cat(Q, A), Cat(Q, B), limit);
      CatUnionRight(Q, A, B);
    }
  }

  lemma {:induction false} ProductValid(before: seq<StarQuery>, after: seq<StarQuery>, limit: nat)
    requires AllValid(before) && AllValid(after)
    ensures AllValid(Product(before, after, limit))
  {
    if before != [] {
      ProductValid(before[1..], after, limit);
      RowValid(before[0], after, limit);
    }
  }

  lemma {:induction false} ProductTraces(before: seq<StarQuery>, after: seq<StarQuery>, limit: nat)
    requires AllValid(before) && AllValid(after)
    ensures Upto(ListTraces(Product(before, after, limit)), limit) == Upto(Cat(ListTraces(before), ListTraces(after)), limit)
  {
    var B := ListTraces(after);
    if before == [] {
      CatNothing(B);
    } else {
      var row, tail := Row(before[0], after, limit), Product(before[1..], after, limit);
      ProductTraces(before[1..], after, limit);
      RowTraces(before[0], after, limit);
      ListTracesAppend(row, tail);
      CatUnionLeft(UnitsTraces(before[0].units), ListTraces(before[1..]), B);
      UptoUnion(ListTraces(row), ListTraces(tail), limit);
      UptoUnion(Cat(UnitsTraces(before[0].units), B), Cat(ListTraces(before[1..]), B), limit);
    }
  }

  lemma AppendAlternativesTraces(queries: seq<StarQuery>, alt: seq<StarQuery>, limit: nat)
    requires AllValid(queries) && AllValid(alt)
    ensures AllValid(AppendAlternatives(queries, alt, limit))
    ensures Upto(ListTraces(AppendAlternatives(queries, alt, limit)), limit) == Upto(Cat(ListTraces(queries), ListTraces(alt)), limit)
  {
    if |alt| == 0 {
      CatNothing(ListTraces(queries));
    } else if |alt| == 1 {
      assert alt == [alt[0]];
      ListTracesOne(alt[0]);
      AppendAllTraces(queries, alt[0]);
      AppendAllValid(queries, alt[0]);
    } else {
      ProductTraces(queries, alt, limit);
      ProductValid(queries, alt, limit);
    }
  }

  lemma {:induction false} ShortEnoughTraces(queries: seq<StarQuery>, limit: nat)
    requires AllValid(queries)
    ensures AllValid(ShortEnough(queries, limit))
    ensures Upto(ListTraces(ShortEnough(queries, limit)), limit) == Upto(ListTraces(queries), limit)
  {
    if queries != [] {
      var head := if queries[0].minLength <= limit then [queries[0]] else [];
      ShortEnoughTraces(queries[1..], limit);
      ListTracesOne(queries[0]);
      if head == [] {
        LongQueryHasNoShortTrace(queries[0], limit);
      }
      ListTracesAppend(head, ShortEnough(queries[1..], limit));
      UptoUnion(ListTraces(head), ListTraces(ShortEnough(queries[1..], limit)), limit);
      UptoUnion(UnitsTraces(queries[0].units), ListTraces(queries[1..]), limit);
    }
  }

  /** Expansion turns a tree into star queries with the same traces, up to the length limit. */
  lemma {:induction false} StarQueriesTraces(u: Unit, limit: nat, R: RegexMeaning)
    requires RegexFree(u)
    ensures AllValid(StarQueriesOf(u, limit))
    ensures Upto(ListTraces(StarQueriesOf(u, limit)), limit) == Upto(UnitTraces(u, R), limit)
    decreases u, 2
  {
    match u
    case Alternation(cs) =>
      StarQueriesOfAnyTraces(cs, limit, R);
    case Concat(cs) =>
      ListTracesOne(EMPTY);
      ExtendAllTraces([EMPTY], cs, limit, R);
      EpsilonCat(TracesAll(cs, R));
      ShortEnoughTraces(ExtendAll([EMPTY], cs, limit), limit);
    case Word(_) => LeafTraces(u, R);
    case QMark => LeafTraces(u, R);
    case Star => LeafTraces(u, R);
  }

  lemma ExtendLeafTraces(queries: seq<StarQuery>, u: Unit, R: RegexMeaning)
    requires AllValid(queries) && (u.Word? || u.QMark? || u.Star?)
    ensures AllValid(PushAll(queries, LeafOf(u)))
    ensures ListTraces(PushAll(queries, LeafOf(u))) == Cat(ListTraces(queries), UnitTraces(u, R))
  {
    PushAllValid(queries, LeafOf(u));
    PushAllTraces(queries, LeafOf(u));
  }

  lemma LeafTraces(u: Unit, R: RegexMeaning)
    requires u.Word? || u.QMark? || u.Star?
    ensures EMPTY.PushBack(LeafOf(u)).Valid()
    ensures ListTraces([EMPTY.PushBack(LeafOf(u))]) == UnitTraces(u, R)
  {
    ListTracesOne(EMPTY.PushBack(LeafOf(u)));
    assert [] + [LeafOf(u)] == [LeafOf(u)];
    UnitsTracesOne(LeafOf(u));
  }

  lemma {:induction false} StarQueriesOfAnyTraces(cs: seq<Unit>, limit: nat, R: RegexMeaning)
    requires AllRegexFree(cs)
    ensures AllValid(StarQueriesOfAny(cs, limit))
    ensures Upto(ListTraces(StarQueriesOfAny(cs, limit)), limit) == Upto(TracesAny(cs, R), limit)
    decreases cs, 0
  {
    if cs != [] {
      var head, tail := StarQueriesOf(cs[0], limit), StarQueriesOfAny(cs[1..], limit);
      StarQueriesTraces(cs[0], limit, R);
      StarQueriesOfAnyTraces(cs[1..], limit, R);
      ListTracesAppend(head, tail);
      UptoUnion(ListTraces(head), ListTraces(tail), limit);
      UptoUnion(UnitTraces(cs[0], R), TracesAny(cs[1..], R), limit);
    }
  }

  lemma {:induction false} ExtendTraces(queries: seq<StarQuery>, u: Unit, limit: nat, R: RegexMeaning)
    requires RegexFree(u) && AllValid(queries)
    ensures AllValid(Extend(queries, u, limit))
    ensures Upto(ListTraces(Extend(queries, u, limit)), limit) == Upto(Cat(ListTraces(queries), UnitTraces(u, R)), limit)
    decreases u, 1
  {
    match u
    case Alternation(cs) =>
      var alt := StarQueriesOfAny(cs, limit);
      StarQueriesOfAnyTraces(cs, limit, R);
      AppendAlternativesTraces(queries, alt, limit);
      UptoCatCongruence(ListTraces(queries), ListTraces(alt), ListTraces(queries), TracesAny(cs, R), limit);
    case Concat(cs) =>
      ExtendAllTraces(queries, cs, limit, R);
    case Word(_) => ExtendLeafTraces(queries, u, R);
    case QMark => ExtendLeafTraces(queries, u, R);
    case Star => ExtendLeafTraces(queries, u, R);
  }

  lemma {:induction false} ExtendAllTraces(queries: seq<StarQuery>, cs: seq<Unit>, limit: nat, R: RegexMeaning)
    requires AllRegexFree(cs) && AllValid(queries)
    ensures AllValid(ExtendAll(queries, cs, limit))
    ensures Upto(ListTraces(ExtendAll(queries, cs, limit)), limit) == Upto(Cat(ListTraces(queries), TracesAll(cs, R)), limit)
    decreases cs, 0
  {
    var Q := ListTraces(queries);
    if cs == [] {
      CatEpsilon(Q);
    } else {
      var T, rest := UnitTraces(cs[0], R), TracesAll(cs[1..], R);
      var next := Extend(queries, cs[0], limit);
      ExtendTraces(queries, cs[0], limit, R);
      ExtendAllTraces(next, cs[1..], limit, R);
      UptoCatCongruence(ListTraces(next), rest, Cat(Q, T), rest, limit);
      CatAssoc(Q, T, rest);
    }
  }

  // ---------------------------------------------------------------- lengths of the star queries

  /** Every query has at least lo and at most hi fixed places. */
  ghost predicate Between(queries: seq<StarQuery>, lo: nat, hi: nat)
  {
    forall q :: q in queries ==> lo <= q.minLength <= hi
  }

  lemma {:induction false} PushAllBetween(queries: seq<StarQuery>, u: StarUnit, lo: nat, hi: nat)
    requires Between(queries, lo, hi)
    ensures var n := if u.SStar? then 0 else 1; Between(PushAll(queries, u), lo + n, hi + n)
  {
    if queries != [] {
      assert queries[0] in queries;
      assert Between(queries[1..], lo, hi);
      PushAllBetween(queries[1..], u, lo, hi);
    }
  }

  lemma {:induction false} AppendAllBetween(queries: seq<StarQuery>, a: StarQuery, lo: nat, hi: nat)
    requires Between(queries, lo, hi)
    ensures Between(AppendAll(queries, a), lo + a.minLength, hi + a.minLength)
  {
    if queries != [] {
      assert queries[0] in queries;
      assert Between(queries[1..], lo, hi);
      AppendAllBetween(queries[1..], a, lo, hi);
    }
  }

  lemma {:induction false} RowBetween(q: StarQuery, after: seq<StarQuery>, limit: nat, lo: nat, hi: nat)
    requires Between(after, lo, hi)
    ensures Between(Row(q, after, limit), q.minLength + lo, q.minLength + hi)
  {
    if after != [] {
      assert after[0] in after;
      assert Between(after[1..], lo, hi);
      RowBetween(q, after[1..], limit, lo, hi);
    }
  }

  lemma {:induction false} ProductBetween(before: seq<StarQuery>, after: seq<StarQuery>, limit: nat, lo: nat, hi: nat, lo': nat, hi': nat)
    requires Between(before, lo, hi) && Between(after, lo', hi')
    ensures Between(Product(before, after, limit), lo + lo', hi + hi')
  {
    if before != [] {
      assert before[0] in before;
      assert Between(before[1..], lo, hi);
      RowBetween(before[0], after, limit, lo', hi');
      ProductBetween(before[1..], after, limit, lo, hi, lo', hi');
    }
  }

  lemma AppendAlternativesBetween(queries: seq<StarQuery>, alt: seq<StarQuery>, limit: nat, lo: nat, hi: nat, lo': nat, hi': nat)
    requires Between(queries, lo, hi) && Between(alt, lo', hi')
    ensures Between(AppendAlternatives(queries, alt, limit), lo + lo', hi + hi')
  {
    if |alt| == 1 {
      assert alt[0] in alt;
      AppendAllBetween(queries, alt[0], lo, hi);
    } else if |alt| > 1 {
      ProductBetween(queries, alt, limit, lo, hi, lo', hi');
    }
  }

  lemma {:induction false} ShortEnoughBetween(queries: seq<StarQuery>, limit: nat, lo: nat, hi: nat)
    requires Between(queries, lo, hi)
    ensures Between(ShortEnough(queries, limit), lo, hi)
    ensures forall q :: q in ShortEnough(queries, limit) ==> q.minLength <= limit
  {
    if queries != [] {
      assert queries[0] in queries;
      assert Between(queries[1..], lo, hi);
      ShortEnoughBetween(queries[1..], limit, lo, hi);
    }
  }

  /** The fixed places of a star query lie between the minimum length and the weight of its unit, so the cached
      32-bit length never wraps; a unit that accepts nothing has no star queries. */
  lemma {:induction false} StarQueriesBetween(u: Unit, limit: nat)
    requires RegexFree(u) && Weight(u) < UINT32_MAX
    ensures Between(StarQueriesOf(u, limit), MinLen(u), Weight(u))
    ensures MinLen(u) == UINT32_MAX ==> StarQueriesOf(u, limit) == []
    decreases u, 2
  {
    match u
    case Alternation(cs) => StarQueriesOfAnyBetween(cs, limit);
    case Concat(cs) => StarQueriesOfAllBetween(cs, limit);
    case _ => LeafBetween(u, limit);
  }

  lemma LeafBetween(u: Unit, limit: nat)
    requires u.Word? || u.QMark? || u.Star?
    ensures MinLen(u) != UINT32_MAX && Between(StarQueriesOf(u, limit), MinLen(u), Weight(u))
  {
  }

  lemma {:induction false} StarQueriesOfAllBetween(cs: seq<Unit>, limit: nat)
    requires AllRegexFree(cs) && WeightSum(cs) < UINT32_MAX
    ensures Between(StarQueriesOf(Concat(cs), limit), SumOfMins(cs), WeightSum(cs))
    ensures SumOfMins(cs) == UINT32_MAX ==> StarQueriesOf(Concat(cs), limit) == []
    decreases cs, 1
  {
    ExtendAllBetween([EMPTY], cs, limit, 0, 0);
    if SumOfMins(cs) != UINT32_MAX {
      ShortEnoughBetween(ExtendAll([EMPTY], cs, limit), limit, SumOfMins(cs), WeightSum(cs));
    }
  }

  lemma {:induction false} StarQueriesOfAnyBetween(cs: seq<Unit>, limit: nat)
    requires AllRegexFree(cs) && WeightMax(cs) < UINT32_MAX
    ensures Between(StarQueriesOfAny(cs, limit), LeastOfMins(cs), WeightMax(cs))
    ensures LeastOfMins(cs) == UINT32_MAX ==> StarQueriesOfAny(cs, limit) == []
    decreases cs, 0
  {
    if cs != [] {
      StarQueriesBetween(cs[0], limit);
      StarQueriesOfAnyBetween(cs[1..], limit);
      RangeWithinWeight(cs[0]);
      RangeOfAnyWithin(cs[1..]);
    }
  }

  lemma {:induction false} ExtendBetween(queries: seq<StarQuery>, u: Unit, limit: nat, lo: nat, hi: nat)
    requires RegexFree(u) && Weight(u) < UINT32_MAX && Between(queries, lo, hi)
    ensures if MinLen(u) == UINT32_MAX then Extend(queries, u, limit) == []
            else Between(Extend(queries, u, limit), lo + MinLen(u), hi + Weight(u))
    decreases u, 1
  {
    match u
    case Alternation(cs) =>
      StarQueriesOfAnyBetween(cs, limit);
      AppendAlternativesBetween(queries, StarQueriesOfAny(cs, limit), limit, lo, hi, MinLen(u), Weight(u));
    case Concat(cs) =>
      ExtendAllBetween(queries, cs, limit, lo, hi);
    case Word(t) => PushAllBetween(queries, SWord(t), lo, hi);
    case QMark => PushAllBetween(queries, SQMark, lo, hi);
    case Star => PushAllBetween(queries, SStar, lo, hi);
  }

  lemma {:induction false} ExtendAllBetween(queries: seq<StarQuery>, cs: seq<Unit>, limit: nat, lo: nat, hi: nat)
    requires AllRegexFree(cs) && WeightSum(cs) < UINT32_MAX && Between(queries, lo, hi)
    ensures if SumOfMins(cs) == UINT32_MAX then ExtendAll(queries, cs, limit) == []
            else Between(ExtendAll(queries, cs, limit), lo + SumOfMins(cs), hi + WeightSum(cs))
    decreases cs, 0
  {
    if cs != [] {
      ExtendBetween(queries, cs[0], limit, lo, hi);
      SumOfMinsCons(cs);
      if MinLen(cs[0]) == UINT32_MAX {
        ExtendAllOfNothing(cs[1..], limit);
      } else {
        ExtendAllBetween(Extend(queries, cs[0], limit), cs[1..], limit, lo + MinLen(cs[0]), hi + Weight(cs[0]));
      }
    }
  }

  lemma {:induction false} ExtendOfNothing(u: Unit, limit: nat)
    requires RegexFree(u)
    ensures Extend([], u, limit) == []
    decreases u, 1
  {
    match u
    case Concat(cs) => ExtendAllOfNothing(cs, limit);
    case _ =>
  }

  lemma {:induction false} ExtendAllOfNothing(cs: seq<Unit>, limit: nat)
    requires AllRegexFree(cs)
    ensures ExtendAll([], cs, limit) == []
    decreases cs, 0
  {
    if cs != [] {
      ExtendOfNothing(cs[0], limit);
      ExtendAllOfNothing(cs[1..], limit);
    }
  }

  // ---------------------------------------------------------------- the expansion, as the program runs it

  method PushBackAll(queries: seq<StarQuery>, u: StarUnit) returns (r: seq<StarQuery>)
    ensures r == PushAll(queries, u)
  {
    r := queries;
    ghost var goal := PushAll(queries, u);
    assert queries[0..] == queries && r[..0] + goal == goal;
    for i := 0 to |r|
      invariant |r| == |queries| && forall j :: i <= j < |r| ==> r[j] == queries[j]
      invariant r[..i] + PushAll(queries[i..], u) == goal
    {
      var q := r[i].PushBack(u);
      PushAllNext(r[..i], queries, u, i);
      TakeUpdated(r, i, q);
      r := r[i := q];
    }
    assert queries[|r|..] == [] && r[..|r|] == r;
    EmptyRight(r);
  }

  lemma PushAllNext(done: seq<StarQuery>, queries: seq<StarQuery>, u: StarUnit, i: nat)
    requires i < |queries|
    ensures done + PushAll(queries[i..], u) == (done + [queries[i].PushBack(u)]) + PushAll(queries[i + 1..], u)
  {
    DropNext(queries, i);
    AppendAssoc(done, [queries[i].PushBack(u)], PushAll(queries[i + 1..], u));
  }

  lemma AppendAllNext(done: seq<StarQuery>, queries: seq<StarQuery>, a: StarQuery, i: nat)
    requires i < |queries|
    ensures done + AppendAll(queries[i..], a) == (done + [queries[i].Append(a)]) + AppendAll(queries[i + 1..], a)
  {
    DropNext(queries, i);
    AppendAssoc(done, [queries[i].Append(a)], AppendAll(queries[i + 1..], a));
  }

  method AppendToAll(queries: seq<StarQuery>, a: StarQuery) returns (r: seq<StarQuery>)
    ensures r == AppendAll(queries, a)
  {
    r := queries;
    ghost var goal := AppendAll(queries, a);
    assert queries[0..] == queries && r[..0] + goal == goal;
    for i := 0 to |r|
      invariant |r| == |queries| && forall j :: i <= j < |r| ==> r[j] == queries[j]
      invariant r[..i] + AppendAll(queries[i..], a) == goal
    {
      var q := r[i].Append(a);
      AppendAllNext(r[..i], queries, a, i);
      TakeUpdated(r, i, q);
      r := r[i := q];
    }
    assert queries[|r|..] == [] && r[..|r|] == r;
    EmptyRight(r);
  }

  lemma RowNext(done: seq<StarQuery>, before: StarQuery, alt: seq<StarQuery>, limit: nat, j: nat)
    requires j < |alt|
    ensures done + Row(before, alt[j..], limit)
         == if before.minLength + alt[j].minLength > limit then done + Row(before, alt[j + 1..], limit)
            else (done + [before.Append(alt[j])]) + Row(before, alt[j + 1..], limit)
  {
    DropNext(alt, j);
    var rest := Row(before, alt[j + 1..], limit);
    EmptyLeft(rest);
    AppendAssoc(done, [before.Append(alt[j])], rest);
  }

  method AppendRow(queries: seq<StarQuery>, before: StarQuery, alt: seq<StarQuery>, limit: nat) returns (r: seq<StarQuery>)
    ensures r == queries + Row(before, alt, limit)
  {
    r := queries;
    ghost var goal := queries + Row(before, alt, limit);
    assert alt[0..] == alt;
    for j := 0 to |alt|
      invariant r + Row(before, alt[j..], limit) == goal
    {
      RowNext(r, before, alt, limit, j);
      if before.minLength + alt[j].minLength > limit {
        continue;
      }
      r := r + [before.Append(alt[j])];
    }
    assert alt[|alt|..] == [];
    EmptyRight(r);
  }

  lemma ProductNext(done: seq<StarQuery>, before: seq<StarQuery>, alt: seq<StarQuery>, limit: nat, i: nat)
    requires i < |before|
    ensures done + Product(before[i..], alt, limit) == (done + Row(before[i], alt, limit)) + Product(before[i + 1..], alt, limit)
  {
    DropNext(before, i);
    AppendAssoc(done, Row(before[i], alt, limit), Product(before[i + 1..], alt, limit));
  }

  method CrossProduct(copy: seq<StarQuery>, alt: seq<StarQuery>, limit: nat) returns (queries: seq<StarQuery>)
    ensures queries == Product(copy, alt, limit)
  {
    queries := [];
    ghost var goal := Product(copy, alt, limit);
    assert copy[0..] == copy && queries + goal == goal;
    for i := 0 to |copy|
      invariant queries + Product(copy[i..], alt, limit) == goal
    {
      ProductNext(queries, copy, alt, limit, i);
      queries := AppendRow(queries, copy[i], alt, limit);
    }
    assert copy[|copy|..] == [];
    EmptyRight(queries);
  }

  /** `concat`: continues every query of the list by the unit. */
  method ConcatUnit(queries: seq<StarQuery>, unit: Unit, limit: nat) returns (r: seq<StarQuery>)
    requires RegexFree(unit)
    ensures r == Extend(queries, unit, limit)
    decreases unit, 1
  {
    match unit
    case Alternation(cs) =>
      var alt := AlternationUnit([], unit, limit);
      assert alt == StarQueriesOf(unit, limit) == StarQueriesOfAny(cs, limit);
      if alt == [] {
        r := [];
      } else if |alt| == 1 {
        r := AppendToAll(queries, alt[0]);
      } else {
        r := CrossProduct(queries, alt, limit);
      }
    case Concat(cs) =>
      r := queries;
      for i := 0 to |cs|
        invariant ExtendAll(r, cs[i..], limit) == ExtendAll(queries, cs, limit)
      {
        assert cs[i..][1..] == cs[i + 1..];
        r := ConcatUnit(r, cs[i], limit);
      }
      assert cs[|cs|..] == [];
    case Word(t) =>
      r := PushBackAll(queries, SWord(t));
    case QMark =>
      r := PushBackAll(queries, SQMark);
    case Star =>
      r := PushBackAll(queries, SStar);
  }

  /** `alternation`: adds the star queries of the unit to the list. */
  method AlternationUnit(queries: seq<StarQuery>, unit: Unit, limit: nat) returns (r: seq<StarQuery>)
    requires RegexFree(unit)
    ensures r == queries + StarQueriesOf(unit, limit)
    decreases unit, if unit.Alternation? then 0 else 2
  {
    match unit
    case Alternation(cs) =>
      r := queries;
      for i := 0 to |cs|
        invariant r + StarQueriesOfAny(cs[i..], limit) == queries + StarQueriesOfAny(cs, limit)
      {
        assert cs[i..][1..] == cs[i + 1..];
        r := AlternationUnit(r, cs[i], limit);
      }
    case Concat(cs) =>
      var con := ConcatUnit([EMPTY], unit, limit);
      r := queries;
      for i := 0 to |con|
        invariant r + ShortEnough(con[i..], limit) == queries + ShortEnough(con, limit)
      {
        assert con[i..][1..] == con[i + 1..];
        if con[i].minLength <= limit {
          r := r + [con[i]];
        }
      }
    case Word(t) =>
      r := queries + [EMPTY.PushBack(SWord(t))];
    case QMark =>
      r := queries + [EMPTY.PushBack(SQMark)];
    case Star =>
      r := queries + [EMPTY.PushBack(SStar)];
  }

  /** `to_star_queries`. */
  method ToStarQueries(root: Unit, limit: nat) returns (result: seq<StarQuery>)
    requires RegexFree(root)
    ensures result == StarQueriesOf(root, limit)
  {
    result := AlternationUnit([], root, limit);
  }
}
