/** SimpleQueryNormalizer (src/netspeak/QueryNormalizer.cpp): star queries as norm queries within the length limits. */
module NormQueries {
  import opened MachineInts
  import opened Languages
  import opened Sequences
  import opened Combinatorics
  import opened Permutations
  import opened ChainCutters
  import opened SimpleQueries
  import opened Traces
  import opened StarQueries

  datatype NormUnit = NWord(text: string) | NQMark

  type NormQuery = seq<NormUnit>

  datatype Options = Options(maxNormQueries: uint64, minLength: uint32, maxLength: uint32, maxRegexMatches: uint64)

  datatype InvalidQueryError = TooManyNormQueries | TooComplex | OrderSetTooLarge

  datatype Result<T> = Ok(value: T) | InvalidQuery(reason: InvalidQueryError)
  {
    /** The same error for another type of value. */
    function To<U>(): Result<U>
      requires InvalidQuery?
    {
      InvalidQuery(reason)
    }
  }

  /** A norm query matches the phrases of its length that agree with its words. */
  predicate Matches(nq: NormQuery, p: Phrase)
  {
    |nq| == |p| && forall i :: 0 <= i < |nq| && nq[i].NWord? ==> p[i] == nq[i].text
  }

  ghost predicate MatchesSome(nqs: seq<NormQuery>, p: Phrase)
  {
    exists i :: 0 <= i < |nqs| && Matches(nqs[i], p)
  }

  // ---------------------------------------------------------------- filling the stars

  function StarCount(units: seq<StarUnit>): nat
  {
    if units == [] then 0 else StarCount(units[..|units| - 1]) + (if units[|units| - 1].SStar? then 1 else 0)
  }

  /** The norm query in which the k-th star became segments[k] question marks. */
  function Filled(units: seq<StarUnit>, segments: seq<nat>): NormQuery
    requires StarCount(units) <= |segments|
  {
    if units == [] then []
    else
      var front, last := units[..|units| - 1], units[|units| - 1];
      Filled(front, segments) +
      match last
      case SWord(t) => [NWord(t)]
      case SQMark => [NQMark]
      case SStar => Repeat(NQMark, segments[StarCount(front)])
  }

  lemma {:induction false} StarCountPlusFixed(units: seq<StarUnit>)
    ensures StarCount(units) + CountFixed(units) == |units|
    ensures StarCount(units) == 0 <==> SStar !in units
  {
    if units != [] {
      var front := units[..|units| - 1];
      StarCountPlusFixed(front);
      assert units == front + [units[|units| - 1]];
    }
  }

  lemma MatchesSplit(a: NormQuery, b: NormQuery, p: Phrase)
    requires Matches(a + b, p)
    ensures Matches(a, p[..|a|]) && Matches(b, p[|a|..])
  {
    forall i | 0 <= i < |b| && b[i].NWord?
      ensures p[|a|..][i] == b[i].text
    {
      assert (a + b)[|a| + i] == b[i];
    }
    forall i | 0 <= i < |a| && a[i].NWord?
      ensures p[..|a|][i] == a[i].text
    {
      assert (a + b)[i] == a[i];
    }
  }

  lemma MatchesJoin(a: NormQuery, b: NormQuery, p: Phrase, q: Phrase)
    requires Matches(a, p) && Matches(b, q)
    ensures Matches(a + b, p + q)
  {
  }

  /** A trace for what one unit, filled with n words if it is a star, matches. */
  lemma LeafSound(u: StarUnit, n: nat, p: Phrase) returns (s: Trace)
    requires Matches(match u case SWord(t) => [NWord(t)] case SQMark => [NQMark] case SStar => Repeat(NQMark, n), p)
    ensures Has(StarUnitTraces(u), s) && Words(s) == p
  {
    s := seq(|p|, i requires 0 <= i < |p| => Step(p[i], !u.SStar?));
    WordsAt(s);
    assert Words(s) == p;
    if u.SStar? {
      assert IsFilling(s);
    } else {
      assert IsFixed(s);
      if u.SWord? {
        assert s == [Step(u.text, true)];
      }
    }
  }

  /** What a filled star query matches has a trace of the star query. */
  lemma {:induction false} FilledSound(units: seq<StarUnit>, segments: seq<nat>, p: Phrase) returns (s: Trace)
    requires StarCount(units) <= |segments| && Matches(Filled(units, segments), p)
    ensures Has(UnitsTraces(units), s) && Words(s) == p
  {
    if units == [] {
      s := [];
    } else {
      var front, last := units[..|units| - 1], units[|units| - 1];
      var a := Filled(front, segments);
      var n := if last.SStar? then segments[StarCount(front)] else 0;
      var b := match last case SWord(t) => [NWord(t)] case SQMark => [NQMark] case SStar => Repeat(NQMark, n);
      MatchesSplit(a, b, p);
      var x := FilledSound(front, segments, p[..|a|]);
      var y := LeafSound(last, n, p[|a|..]);
      s := x + y;
      WordsAppend(x, y);
      assert p == p[..|a|] + p[|a|..];
      assert units == front + [last];
      UnitsTracesAppend(front, [last]);
      UnitsTracesOne(last);
      CatIntro(x, y, UnitsTraces(front), StarUnitTraces(last));
    }
  }

  /** A trace of one unit tells how many words fill it if it is a star. */
  lemma LeafComplete(u: StarUnit, s: Trace)
    requires Has(StarUnitTraces(u), s)
    ensures Matches(match u case SWord(t) => [NWord(t)] case SQMark => [NQMark] case SStar => Repeat(NQMark, |s|), Words(s))
    ensures !u.SStar? ==> |s| == 1
  {
    WordsAt(s);
  }

  /** Filled depends only on as many segments as there are stars. */
  lemma {:induction false} FilledPrefix(units: seq<StarUnit>, a: seq<nat>, b: seq<nat>)
    requires StarCount(units) <= |a|
    ensures Filled(units, a + b) == Filled(units, a)
  {
    if units != [] {
      FilledPrefix(units[..|units| - 1], a, b);
    }
  }

  /** Every trace of a star query comes from one filling of its stars. */
  lemma {:induction false} FilledComplete(units: seq<StarUnit>, s: Trace) returns (segments: seq<nat>)
    requires Has(UnitsTraces(units), s)
    ensures |segments| == StarCount(units) && Matches(Filled(units, segments), Words(s))
    ensures CountFixed(units) + Sum(segments) == |s|
  {
    if units == [] {
      segments := [];
    } else {
      var front, last := units[..|units| - 1], units[|units| - 1];
      assert units == front + [last];
      UnitsTracesAppend(front, [last]);
      UnitsTracesOne(last);
      var x, y := CatElim(s, UnitsTraces(front), StarUnitTraces(last));
      var before := FilledComplete(front, x);
      LeafComplete(last, y);
      WordsAppend(x, y);
      if last.SStar? {
        segments := before + [|y|];
        FilledPrefix(front, before, [|y|]);
        InitOfSnoc(before, |y|);
        MatchesJoin(Filled(front, before), Repeat(NQMark, |y|), Words(x), Words(y));
      } else {
        segments := before;
        MatchesJoin(Filled(front, before), if last.SWord? then [NWord(last.text)] else [NQMark], Words(x), Words(y));
      }
    }
  }

  lemma {:induction false} SumPrefix(t: seq<nat>, n: nat)
    requires n <= |t|
    ensures Sum(t[..n]) <= Sum(t)
    decreases |t| - n
  {
    if n < |t| {
      SumPrefix(t, n + 1);
      assert t[..n + 1][..n] == t[..n];
    } else {
      assert t[..n] == t;
    }
  }

  lemma {:induction false} FilledLength(units: seq<StarUnit>, segments: seq<nat>)
    requires StarCount(units) <= |segments|
    ensures |Filled(units, segments)| == CountFixed(units) + Sum(segments[..StarCount(units)])
  {
    if units == [] {
    } else {
      var front, last := units[..|units| - 1], units[|units| - 1];
      FilledLength(front, segments);
      var k := StarCount(front);
      if last.SStar? {
        assert segments[..k + 1][..k] == segments[..k];
      }
    }
  }

  // ---------------------------------------------------------------- one star query

  /** The norm queries from which the fillings of the stars with at most `room` extra words come, each filling once. */
  ghost predicate AllFillings(nqs: seq<NormQuery>, units: seq<StarUnit>, room: nat, cuts: seq<seq<nat>>)
  {
    && Distinct(cuts)
    && (forall t :: t in cuts <==> IsCut(t, StarCount(units), room))
    && |nqs| == |cuts| == Choose(StarCount(units) + room, StarCount(units))
    && forall i :: 0 <= i < |cuts| ==> |cuts[i]| > StarCount(units) && nqs[i] == Filled(units, cuts[i])
  }

  /** p has a trace of the star query that is not longer than the limit. */
  ghost predicate Fits(units: seq<StarUnit>, limit: nat, p: Phrase)
  {
    |p| <= limit && Traced(UnitsTraces(units), p)
  }

  lemma AllFillingsMeaning(nqs: seq<NormQuery>, q: StarQuery, limit: nat, cuts: seq<seq<nat>>)
    requires q.Valid() && q.minLength <= limit
    requires AllFillings(nqs, q.units, limit - q.minLength, cuts)
    ensures forall p :: MatchesSome(nqs, p) <==> Fits(q.units, limit, p)
    ensures forall i :: 0 <= i < |nqs| ==> q.minLength <= |nqs[i]| <= limit
  {
    forall i | 0 <= i < |nqs|
      ensures q.minLength <= |nqs[i]| <= limit
    {
      FillingLength(nqs, q, limit, cuts, i);
    }
    forall p
      ensures MatchesSome(nqs, p) <==> Fits(q.units, limit, p)
    {
      if MatchesSome(nqs, p) {
        var i :| 0 <= i < |nqs| && Matches(nqs[i], p);
        FillingSound(nqs, q, limit, cuts, i, p);
      }
      if Fits(q.units, limit, p) {
        var i := FillingComplete(nqs, q, limit, cuts, p);
      }
    }
  }

  lemma FillingLength(nqs: seq<NormQuery>, q: StarQuery, limit: nat, cuts: seq<seq<nat>>, i: nat)
    requires q.Valid() && q.minLength <= limit
    requires AllFillings(nqs, q.units, limit - q.minLength, cuts) && i < |nqs|
    ensures q.minLength <= |nqs[i]| <= limit
  {
    assert cuts[i] in cuts;
    FilledLength(q.units, cuts[i]);
    SumPrefix(cuts[i], StarCount(q.units));
  }

  lemma FillingSound(nqs: seq<NormQuery>, q: StarQuery, limit: nat, cuts: seq<seq<nat>>, i: nat, p: Phrase)
    requires q.Valid() && q.minLength <= limit
    requires AllFillings(nqs, q.units, limit - q.minLength, cuts) && i < |nqs| && Matches(nqs[i], p)
    ensures Fits(q.units, limit, p)
  {
    FillingLength(nqs, q, limit, cuts, i);
    var s := FilledSound(q.units, cuts[i], p);
  }

  lemma FillingComplete(nqs: seq<NormQuery>, q: StarQuery, limit: nat, cuts: seq<seq<nat>>, p: Phrase) returns (i: nat)
    requires q.Valid() && q.minLength <= limit
    requires AllFillings(nqs, q.units, limit - q.minLength, cuts) && Fits(q.units, limit, p)
    ensures i < |nqs| && Matches(nqs[i], p)
  {
    var k := StarCount(q.units);
    var s :| Has(UnitsTraces(q.units), s) && Words(s) == p;
    var segments := FilledComplete(q.units, s);
    var slack := limit - |p|;
    var t := segments + [slack];
    InitOfSnoc(segments, slack);
    assert IsCut(t, k, limit - q.minLength);
    i :| 0 <= i < |cuts| && cuts[i] == t;
    FilledPrefix(q.units, segments, [slack]);
  }

  method FillStars(units: seq<StarUnit>, segments: seq<nat>) returns (nq: NormQuery)
    requires StarCount(units) < |segments|
    ensures nq == Filled(units, segments)
  {
    nq := [];
    var starI: nat := 0;
    assert units[..0] == [];
    for i := 0 to |units|
      invariant starI == StarCount(units[..i]) <= StarCount(units)
      invariant nq == Filled(units[..i], segments)
    {
      assert units[..i + 1][..i] == units[..i];
      StarCountPrefix(units, i + 1);
      match units[i]
      case SWord(t) =>
        nq := nq + [NWord(t)];
      case SQMark =>
        nq := nq + [NQMark];
      case SStar =>
        var qmarkCount := segments[starI];
        starI := starI + 1;
        ghost var before := nq;
        ghost var total := qmarkCount;
        while qmarkCount != 0
          invariant qmarkCount <= total
          invariant nq == before + Repeat(NQMark, total - qmarkCount)
        {
          nq := nq + [NQMark];
          qmarkCount := qmarkCount - 1;
        }
    }
    assert units[..|units|] == units;
  }

  lemma {:induction false} StarCountPrefix(units: seq<StarUnit>, n: nat)
    requires n <= |units|
    ensures StarCount(units[..n]) <= StarCount(units)
    decreases |units| - n
  {
    if n < |units| {
      StarCountPrefix(units, n + 1);
      assert units[..n + 1][..n] == units[..n];
    } else {
      assert units[..n] == units;
    }
  }

  /** `add_simple`: without stars there is one filling. */
  method AddSimple(normQueries: seq<NormQuery>, query: StarQuery, ghost limit: nat)
    returns (r: seq<NormQuery>, ghost added: seq<NormQuery>, ghost cuts: seq<seq<nat>>)
    requires query.Valid() && !query.HasStar() && query.minLength <= limit
    ensures r == normQueries + added && AllFillings(added, query.units, limit - query.minLength, cuts)
  {
    StarCountPlusFixed(query.units);
    var nq: NormQuery := [];
    ghost var room: nat := limit - query.minLength;
    cuts := [[room]];
    assert query.units[..0] == [];
    for i := 0 to |query.units|
      invariant StarCount(query.units[..i]) == 0
      invariant nq == Filled(query.units[..i], [room])
    {
      assert query.units[..i + 1][..i] == query.units[..i];
      StarCountPrefix(query.units, i + 1);
      match query.units[i]
      case SWord(t) => nq := nq + [NWord(t)];
      case SQMark => nq := nq + [NQMark];
      case SStar => assert false;
    }
    assert query.units[..|query.units|] == query.units;
    r := normQueries + [nq];
    added := [nq];
    OneCut(room);
  }

  lemma OneCut(room: nat)
    ensures forall t :: t in [[room]] <==> IsCut(t, 0, room)
  {
    forall t: seq<nat>
      ensures t in [[room]] <==> IsCut(t, 0, room)
    {
      if t in [[room]] {
        assert t == [room] && t[..0] == [];
        assert Sum(t) == Sum(t[..0]) + room;
      }
      if IsCut(t, 0, room) {
        assert t[..0] == [] && Sum(t) == Sum(t[..0]) + t[0];
        assert t == [room];
      }
    }
  }

  method CountStars(units: seq<StarUnit>) returns (starCount: nat)
    ensures starCount == StarCount(units)
  {
    starCount := 0;
    assert units[..0] == [];
    for i := 0 to |units|
      invariant starCount == StarCount(units[..i])
    {
      assert units[..i + 1][..i] == units[..i];
      if units[i].SStar? {
        starCount := starCount + 1;
      }
    }
    assert units[..|units|] == units;
  }

  /** `add_with_stars`: runs the chain cutter over the stars and the room that is left. */
  method AddWithStars(normQueries: seq<NormQuery>, query: StarQuery, options: Options)
    returns (r: seq<NormQuery>, ghost added: seq<NormQuery>, ghost cuts: seq<seq<nat>>)
    requires query.Valid() && options.minLength <= query.minLength <= options.maxLength
    ensures r == normQueries + added
    ensures AllFillings(added, query.units, options.maxLength - query.minLength, cuts)
  {
    var starCount := CountStars(query.units);
    var available: nat := options.maxLength - query.minLength;

    var cutter := new ChainCutter(starCount, available);
    r := normQueries;
    added := [];
    ghost var states := [];
    var more := true;
    while more
      invariant fresh(cutter) && cutter.cuts == starCount && cutter.length == available
      invariant r == normQueries + added && FilledFrom(added, query.units, states)
      invariant more ==> cutter.Valid() && cutter.visited == states + [cutter.state]
      invariant !more ==> VisitedAll(states, starCount, available)
      decreases more, Pow(2, starCount + available) - Number(cutter.state, 2)
    {
      CutOfState(cutter.state, starCount, available);
      StateNumber(cutter.state, starCount, available);
      r := AddFilling(r, query, cutter.output, options.minLength);
      added := GrowAdded(normQueries, added, query.units, cutter.state, states);
      states := cutter.visited;
      more := NextCut(cutter);
    }
    cuts := AllSegments(states);
    FinishFillings(added, query.units, available, states);
  }

  method AddFilling(normQueries: seq<NormQuery>, query: StarQuery, segments: seq<nat>, minLength: nat)
    returns (r: seq<NormQuery>)
    requires query.Valid() && minLength <= query.minLength && StarCount(query.units) < |segments|
    ensures r == normQueries + [Filled(query.units, segments)]
  {
    r := normQueries;
    var nq := FillStars(query.units, segments);
    FilledLength(query.units, segments);
    if |nq| >= minLength {
      r := r + [nq];
    }
  }

  lemma GrowAdded(before: seq<NormQuery>, added: seq<NormQuery>, units: seq<StarUnit>, state: seq<nat>, states: seq<seq<nat>>)
    returns (grown: seq<NormQuery>)
    requires FilledFrom(added, units, states) && StarCount(units) < |Segments(state)|
    ensures FilledFrom(grown, units, states + [state])
    ensures before + grown == (before + added) + [Filled(units, Segments(state))]
  {
    grown := added + [Filled(units, Segments(state))];
  }

  /** `next` as the loop above sees it. */
  method NextCut(cutter: ChainCutter) returns (more: bool)
    requires cutter.Valid()
    modifies cutter
    ensures more ==> cutter.Valid() && cutter.visited == old(cutter.visited) + [cutter.state]
    ensures more ==> old(Number(cutter.state, 2)) < Number(cutter.state, 2) < Pow(2, cutter.cuts + cutter.length)
    ensures !more ==> VisitedAll(old(cutter.visited), cutter.cuts, cutter.length)
  {
    more := cutter.Next();
    StateNumber(cutter.state, cutter.cuts, cutter.length);
  }

  lemma FinishFillings(added: seq<NormQuery>, units: seq<StarUnit>, available: nat, states: seq<seq<nat>>)
    requires FilledFrom(added, units, states) && VisitedAll(states, StarCount(units), available)
    ensures AllFillings(added, units, available, AllSegments(states))
  {
    EveryCutOnce(states, StarCount(units), available);
    AllSegmentsAt(states);
  }

  /** added holds, in order, the filling for each of the states. */
  ghost predicate FilledFrom(added: seq<NormQuery>, units: seq<StarUnit>, states: seq<seq<nat>>)
  {
    && |added| == |states|
    && forall i :: 0 <= i < |states| ==>
         |Segments(states[i])| > StarCount(units) && added[i] == Filled(units, Segments(states[i]))
  }

  lemma StateIsBinary(s: seq<nat>, cuts: nat, length: nat)
    requires IsState(s, cuts, length)
    ensures Binary(s) && |s| == cuts + length
  {
    CutOfState(s, cuts, length);
    PermutesLength(s, Zeros(length) + Ones(cuts));
  }

  lemma BinaryNumber(s: seq<nat>)
    requires Binary(s)
    ensures Number(s, 2) < Pow(2, |s|)
  {
    NumberBound(s, 2);
  }

  lemma StateNumber(s: seq<nat>, cuts: nat, length: nat)
    requires IsState(s, cuts, length)
    ensures Number(s, 2) < Pow(2, cuts + length)
  {
    StateIsBinary(s, cuts, length);
    BinaryNumber(s);
  }

  // ---------------------------------------------------------------- all star queries

  /** The guard that a star query has to pass. */
  predicate Kept(q: StarQuery, options: Options)
  {
    options.minLength <= q.minLength <= options.maxLength
  }

  /** How many norm queries a star query gives. */
  function EmittedCount(q: StarQuery, options: Options): nat
  {
    if Kept(q, options)
    then Choose(StarCount(q.units) + options.maxLength - q.minLength, StarCount(q.units))
    else 0
  }

  function EmittedTotal(queries: seq<StarQuery>, options: Options): nat
  {
    if queries == [] then 0
    else EmittedTotal(queries[..|queries| - 1], options) + EmittedCount(queries[|queries| - 1], options)
  }

  ghost predicate KeptFits(queries: seq<StarQuery>, options: Options, p: Phrase)
  {
    exists i :: 0 <= i < |queries| && Kept(queries[i], options) && Fits(queries[i].units, options.maxLength, p)
  }

  /** The norm queries stand for the kept star queries: same phrases, right lengths, and as many as expected. */
  ghost predicate Emission(nqs: seq<NormQuery>, queries: seq<StarQuery>, options: Options)
  {
    && (forall p :: MatchesSome(nqs, p) <==> KeptFits(queries, options, p))
    && (forall i :: 0 <= i < |nqs| ==> options.minLength <= |nqs[i]| <= options.maxLength)
    && |nqs| == EmittedTotal(queries, options)
  }

  lemma MatchesSomeAppend(a: seq<NormQuery>, b: seq<NormQuery>, p: Phrase)
    ensures MatchesSome(a + b, p) <==> MatchesSome(a, p) || MatchesSome(b, p)
  {
    if MatchesSome(a, p) {
      var i :| 0 <= i < |a| && Matches(a[i], p);
      assert Matches((a + b)[i], p);
    }
    if MatchesSome(b, p) {
      var i :| 0 <= i < |b| && Matches(b[i], p);
      assert Matches((a + b)[|a| + i], p);
    }
  }

  lemma KeptFitsSnoc(queries: seq<StarQuery>, q: StarQuery, options: Options, p: Phrase)
    ensures KeptFits(queries + [q], options, p) <==>
              KeptFits(queries, options, p) || (Kept(q, options) && Fits(q.units, options.maxLength, p))
  {
    var all := queries + [q];
    if KeptFits(queries, options, p) {
      var i :| 0 <= i < |queries| && Kept(queries[i], options) && Fits(queries[i].units, options.maxLength, p);
      assert all[i] == queries[i];
    }
    if Kept(q, options) && Fits(q.units, options.maxLength, p) {
      assert all[|queries|] == q;
    }
  }

  /** One more star query, with the norm queries it adds. */
  lemma EmissionStep(nqs: seq<NormQuery>, queries: seq<StarQuery>, q: StarQuery, options: Options,
                     added: seq<NormQuery>, cuts: seq<seq<nat>>)
    requires Emission(nqs, queries, options) && q.Valid()
    requires if Kept(q, options) then AllFillings(added, q.units, options.maxLength - q.minLength, cuts) else added == []
    ensures Emission(nqs + added, queries + [q], options)
  {
    if Kept(q, options) {
      AllFillingsMeaning(added, q, options.maxLength, cuts);
    }
    forall p
      ensures MatchesSome(nqs + added, p) <==> KeptFits(queries + [q], options, p)
    {
      MatchesSomeAppend(nqs, added, p);
      KeptFitsSnoc(queries, q, options, p);
    }
    assert (queries + [q])[..|queries|] == queries;
  }

  lemma {:induction false} EmittedTotalMonotone(queries: seq<StarQuery>, options: Options, n: nat)
    requires n <= |queries|
    ensures EmittedTotal(queries[..n], options) <= EmittedTotal(queries, options)
    decreases |queries| - n
  {
    if n < |queries| {
      EmittedTotalMonotone(queries, options, n + 1);
      assert queries[..n + 1][..n] == queries[..n];
    } else {
      assert queries[..n] == queries;
    }
  }

  /** The norm queries of one star query, if it passes the guard. */
  method AddStarQuery(normQueries: seq<NormQuery>, q: StarQuery, options: Options, ghost queries: seq<StarQuery>,
                      ghost before: seq<NormQuery>)
    returns (r: seq<NormQuery>, ghost more: seq<NormQuery>)
    requires q.Valid() && q.minLength < UINT32_MAX
    requires Emission(before, queries, options)
    ensures Emission(before + more, queries + [q], options)
    ensures r == normQueries + more
  {
    var max := q.MaxLength();
    StarCountPlusFixed(q.units);
    ghost var cuts := [];
    more := [];
    r := normQueries;
    if q.minLength <= options.maxLength && q.minLength >= options.minLength {
      if q.minLength == max {
        r, more, cuts := AddSimple(normQueries, q, options.maxLength);
      } else {
        r, more, cuts := AddWithStars(normQueries, q, options);
      }
    }
    EmissionStep(before, queries, q, options, more, cuts);
  }

  /** The list so far is what it was at first and the norm queries of the first n star queries. */
  ghost predicate Progress(nqs: seq<NormQuery>, start: seq<NormQuery>, added: seq<NormQuery>,
                           queries: seq<StarQuery>, n: nat, options: Options)
  {
    n <= |queries| && nqs == start + added && Emission(added, queries[..n], options)
  }

  method AddNext(nqs: seq<NormQuery>, ghost start: seq<NormQuery>, ghost added: seq<NormQuery>,
                 queries: seq<StarQuery>, i: nat, options: Options)
    returns (r: seq<NormQuery>, ghost after: seq<NormQuery>)
    requires i < |queries| && queries[i].Valid() && queries[i].minLength < UINT32_MAX
    requires Progress(nqs, start, added, queries, i, options)
    ensures Progress(r, start, after, queries, i + 1, options)
    ensures |r| <= |start| + EmittedTotal(queries, options)
  {
    ghost var more;
    r, more := AddStarQuery(nqs, queries[i], options, queries[..i], added);
    AppendAssoc(start, added, more);
    after := added + more;
    TakeNext(queries, i);
    EmittedTotalMonotone(queries, options, i + 1);
  }

  method EmitAll(normQueries: seq<NormQuery>, starQueries: seq<StarQuery>, options: Options)
    returns (r: Result<seq<NormQuery>>, ghost added: seq<NormQuery>)
    requires forall q :: q in starQueries ==> q.Valid() && q.minLength < UINT32_MAX
    ensures r.Ok? ==> r.value == normQueries + added && Emission(added, starQueries, options)
    ensures r.Ok? <==> starQueries == [] || |normQueries| + EmittedTotal(starQueries, options) <= options.maxNormQueries
    ensures r.InvalidQuery? ==> r.reason == TooManyNormQueries
  {
    var nqs := normQueries;
    added := [];
    assert starQueries[..0] == [];
    for i := 0 to |starQueries|
      invariant Progress(nqs, normQueries, added, starQueries, i, options)
      invariant i == 0 || |nqs| <= options.maxNormQueries
    {
      nqs, added := AddNext(nqs, normQueries, added, starQueries, i, options);
      if |nqs| > options.maxNormQueries {
        return InvalidQuery(TooManyNormQueries), added;
      }
    }
    assert starQueries[..|starQueries|] == starQueries;
    return Ok(nqs), added;
  }

  lemma StarQueriesReady(root: Unit, limit: nat)
    requires RegexFree(root) && Weight(root) < UINT32_MAX
    ensures forall q :: q in StarQueriesOf(root, limit) ==> q.Valid() && q.minLength < UINT32_MAX
  {
    StarQueriesTraces(root, limit, NoRegexes());
    StarQueriesBetween(root, limit);
  }

  /** `to_norm_queries`: fails exactly when the list becomes too long, or is so already while there are star queries. */
  method ToNormQueries(normQueries: seq<NormQuery>, root: Unit, options: Options)
    returns (r: Result<seq<NormQuery>>, ghost added: seq<NormQuery>)
    requires RegexFree(root) && Weight(root) < UINT32_MAX
    ensures r.Ok? ==> r.value == normQueries + added
                      && Emission(added, StarQueriesOf(root, options.maxLength), options)
    ensures r.Ok? <==> StarQueriesOf(root, options.maxLength) == []
                       || |normQueries| + EmittedTotal(StarQueriesOf(root, options.maxLength), options) <= options.maxNormQueries
    ensures r.InvalidQuery? ==> r.reason == TooManyNormQueries
  {
    var starQueries := ToStarQueries(root, options.maxLength);
    StarQueriesReady(root, options.maxLength);
    r, added := EmitAll(normQueries, starQueries, options);
  }

  // ---------------------------------------------------------------- what the norm queries mean for the tree

  lemma {:induction false} ListTracesHas(queries: seq<StarQuery>, s: Trace)
    ensures Has(ListTraces(queries), s) <==> exists i :: 0 <= i < |queries| && Has(UnitsTraces(queries[i].units), s)
  {
    if queries != [] {
      ListTracesHas(queries[1..], s);
      UnionHas(UnitsTraces(queries[0].units), ListTraces(queries[1..]));
      if Has(ListTraces(queries[1..]), s) {
        var i :| 0 <= i < |queries[1..]| && Has(UnitsTraces(queries[1..][i].units), s);
        assert Has(UnitsTraces(queries[i + 1].units), s);
      }
      if i :| 0 < i < |queries| && Has(UnitsTraces(queries[i].units), s) {
        assert Has(UnitsTraces(queries[1..][i - 1].units), s);
      }
    }
  }

  /** The meaning of a tree without regexes does not depend on the regex index. */
  ghost function NoRegexes(): RegexMeaning
  {
    t => iset{}
  }

  /** p is accepted on a path of the tree that itself fixes at least the minimum number of words. */
  ghost predicate AcceptedLongEnough(root: Unit, options: Options, p: Phrase)
  {
    |p| <= options.maxLength
    && exists s :: Has(UnitTraces(root, NoRegexes()), s) && Words(s) == p && options.minLength <= FixedCount(s)
  }

  lemma UptoHas<T(!new)>(A: Language<T>, B: Language<T>, n: int, s: seq<T>)
    requires Upto(A, n) == Upto(B, n) && |s| <= n
    ensures Has(A, s) <==> Has(B, s)
  {
    assert Has(Upto(A, n), s) <==> Has(A, s);
    assert Has(Upto(B, n), s) <==> Has(B, s);
  }

  lemma KeptFitsMeaning(root: Unit, options: Options, p: Phrase)
    requires RegexFree(root)
    ensures KeptFits(StarQueriesOf(root, options.maxLength), options, p) <==> AcceptedLongEnough(root, options, p)
  {
    var L := options.maxLength;
    var queries, R := StarQueriesOf(root, L), NoRegexes();
    StarQueriesTraces(root, L, R);
    if KeptFits(queries, options, p) {
      var i :| 0 <= i < |queries| && Kept(queries[i], options) && Fits(queries[i].units, L, p);
      var s :| Has(UnitsTraces(queries[i].units), s) && Words(s) == p;
      FixedCountOfTrace(queries[i].units, s);
      ListTracesHas(queries, s);
      UptoHas(ListTraces(queries), UnitTraces(root, R), L, s);
    }
    if AcceptedLongEnough(root, options, p) {
      var s :| Has(UnitTraces(root, R), s) && Words(s) == p && options.minLength <= FixedCount(s);
      UptoHas(ListTraces(queries), UnitTraces(root, R), L, s);
      ListTracesHas(queries, s);
      var i :| 0 <= i < |queries| && Has(UnitsTraces(queries[i].units), s);
      FixedCountOfTrace(queries[i].units, s);
      assert Kept(queries[i], options) && Fits(queries[i].units, L, p);
    }
  }

  /** The exact meaning of the emitted norm queries, for every minimum and maximum length. */
  lemma EmissionMeaning(nqs: seq<NormQuery>, root: Unit, options: Options, p: Phrase)
    requires RegexFree(root)
    requires Emission(nqs, StarQueriesOf(root, options.maxLength), options)
    ensures MatchesSome(nqs, p) <==> AcceptedLongEnough(root, options, p)
  {
    KeptFitsMeaning(root, options, p);
  }

  /** Without a minimum length, the norm queries match exactly the accepted phrases within the maximum length. */
  lemma EmissionComplete(nqs: seq<NormQuery>, root: Unit, options: Options, p: Phrase)
    requires RegexFree(root) && options.minLength == 0
    requires Emission(nqs, StarQueriesOf(root, options.maxLength), options)
    ensures MatchesSome(nqs, p) <==> |p| <= options.maxLength && Has(Lang(root, NoRegexes()), p)
  {
    EmissionMeaning(nqs, root, options, p);
    ErasedTraces(root, NoRegexes());
    if Has(Lang(root, NoRegexes()), p) {
      assert Traced(UnitTraces(root, NoRegexes()), p);
    }
  }

  /** With any minimum length, what the norm queries match is accepted and within both limits. */
  lemma EmissionSound(nqs: seq<NormQuery>, root: Unit, options: Options, p: Phrase)
    requires RegexFree(root)
    requires Emission(nqs, StarQueriesOf(root, options.maxLength), options)
    requires MatchesSome(nqs, p)
    ensures options.minLength <= |p| <= options.maxLength && Has(Lang(root, NoRegexes()), p)
  {
    EmissionMeaning(nqs, root, options, p);
    ErasedTraces(root, NoRegexes());
  }

  /** For one star query the loss is exactly this: every accepted phrase of a permitted length is matched if and only if
      the query has no star, or fixes enough words by itself, or permits no length at all. */
  lemma StarQueryCompleteIff(q: StarQuery, options: Options, nqs: seq<NormQuery>)
    requires q.Valid() && Emission(nqs, [q], options)
    ensures (forall p :: options.minLength <= |p| && Fits(q.units, options.maxLength, p) ==> MatchesSome(nqs, p))
       <==> !q.HasStar() || options.minLength <= q.minLength || options.maxLength < options.minLength
  {
    var L := options.maxLength;
    forall p
      ensures MatchesSome(nqs, p) <==> Kept(q, options) && Fits(q.units, L, p)
    {
      KeptFitsSnoc([], q, options, p);
      assert [] + [q] == [q];
    }
    if !q.HasStar() || options.minLength <= q.minLength || L < options.minLength {
      forall p | options.minLength <= |p| && Fits(q.units, L, p)
        ensures Kept(q, options)
      {
        var s :| Has(UnitsTraces(q.units), s) && Words(s) == p;
        FixedCountOfTrace(q.units, s);
        if !q.HasStar() {
          StarCountPlusFixed(q.units);
          NoStarLength(q.units, s);
        }
      }
    } else {
      var s := LongTrace(q.units, options.minLength);
      assert Fits(q.units, L, Words(s));
    }
  }

  lemma NoStarLength(units: seq<StarUnit>, s: Trace)
    requires SStar !in units && Has(UnitsTraces(units), s)
    ensures |s| == |units|
  {
    var segments := FilledComplete(units, s);
    StarCountPlusFixed(units);
    FilledLength(units, segments);
    assert segments == [] && Sum(segments) == 0;
  }

  /** With a star, every length from the fixed one on is attained. */
  lemma {:induction false} LongTrace(units: seq<StarUnit>, n: nat) returns (s: Trace)
    requires CountFixed(units) <= n && (SStar in units || n == CountFixed(units))
    ensures Has(UnitsTraces(units), s) && |s| == n
  {
    if units == [] {
      s := [];
    } else {
      var front, last := units[..|units| - 1], units[|units| - 1];
      assert units == front + [last];
      UnitsTracesAppend(front, [last]);
      UnitsTracesOne(last);
      var x, y: Trace;
      if last.SStar? {
        x := LongTrace(front, CountFixed(front));
        y := seq(n - CountFixed(front), i => Step("", false));
        assert IsFilling(y);
      } else {
        x := LongTrace(front, n - 1);
        y := [Step(if last.SWord? then last.text else "", true)];
        assert IsFixed(y);
      }
      CatIntro(x, y, UnitsTraces(front), StarUnitTraces(last));
      s := x + y;
    }
  }
}
