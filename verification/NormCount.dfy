/** How many norm queries a tree stands for (src/netspeak/QueryNormalizer.cpp), counted on the tree itself. */
module NormCounts {
  import Sequences
  import opened MachineInts
  import opened Combinatorics
  import opened SimpleQueries
  import opened StarQueries
  import opened NormQueries
  import opened RegexReplacement

  /** What is counted: the norm queries within the limits, or, for each path, the product of the rooms that its stars have.
      Each regex stands for its words. */
  datatype Counting = Counting(words: RegexWords, options: Options, rooms: bool)
  {
    /** The norm queries of a path with n fixed words and k stars. */
    function AtEnd(n: nat, k: nat): nat
    {
      if !(options.minLength <= n <= options.maxLength) then 0
      else if rooms then Pow(options.maxLength - n + 1, k)
      else Choose(k + options.maxLength - n, k)
    }
  }

  /** The units that are still to come. */
  datatype Units = Nil | Cons(head: Unit, tail: Units)

  function Joined(cs: seq<Unit>, rest: Units): Units
  {
    if cs == [] then rest else Cons(cs[0], Joined(cs[1..], rest))
  }

  function Size(u: Unit): (s: nat)
    ensures s > 0
    decreases u, 1
  {
    match u
    case Concat(cs) => 1 + SizeAll(cs)
    case Alternation(cs) => 1 + SizeAll(cs)
    case _ => 1
  }

  function SizeAll(cs: seq<Unit>): nat
    decreases cs, 0
  {
    if cs == [] then 0 else Size(cs[0]) + SizeAll(cs[1..])
  }

  function ListSize(us: Units): nat
  {
    match us
    case Nil => 0
    case Cons(u, rest) => Size(u) + ListSize(rest)
  }

  lemma {:induction false} JoinedSize(cs: seq<Unit>, rest: Units)
    ensures ListSize(Joined(cs, rest)) == SizeAll(cs) + ListSize(rest)
  {
    if cs != [] {
      JoinedSize(cs[1..], rest);
    }
  }

  /** The norm queries of the units in a row, behind n fixed words and k stars: one choice of an alternative for every
      alternation, one of a word for every regex. */
  function Count(us: Units, c: Counting, n: nat, k: nat): nat
    decreases ListSize(us), 0, 0
  {
    match us
    case Nil => c.AtEnd(n, k)
    case Cons(u, rest) =>
      match u
      case Word(_) => Count(rest, c, n + 1, k)
      case QMark => Count(rest, c, n + 1, k)
      case Star => Count(rest, c, n, k + 1)
      case Regex(t) => Scaled(|c.words(t)|, Count(rest, c, n + 1, k))
      case Concat(cs) =>
        JoinedSize(cs, rest);
        Count(Joined(cs, rest), c, n, k)
      case Alternation(cs) => CountAny(cs, rest, c, n, k)
  }

  function CountAny(cs: seq<Unit>, rest: Units, c: Counting, n: nat, k: nat): nat
    decreases SizeAll(cs) + ListSize(rest), 1, |cs|
  {
    if cs == [] then 0 else Count(Cons(cs[0], rest), c, n, k) + CountAny(cs[1..], rest, c, n, k)
  }

  /** The product, as a sum. */
  function Scaled(m: nat, x: nat): nat
  {
    if m == 0 then 0 else Scaled(m - 1, x) + x
  }

  lemma {:induction false} ScaledIsProduct(m: nat, x: nat)
    ensures Scaled(m, x) == m * x
  {
    if m > 0 {
      ScaledIsProduct(m - 1, x);
    }
  }

  lemma {:induction false} ScaledMonotone(m: nat, x: nat, y: nat)
    requires x <= y
    ensures Scaled(m, x) <= Scaled(m, y)
  {
    if m > 0 {
      ScaledMonotone(m - 1, x, y);
    }
  }

  lemma {:induction false} ScaledZero(m: nat)
    ensures Scaled(m, 0) == 0
  {
    if m > 0 {
      ScaledZero(m - 1);
    }
  }

  // ---------------------------------------------------------------- lists of units

  lemma {:induction false} JoinedAppend(a: seq<Unit>, b: seq<Unit>, rest: Units)
    ensures Joined(a + b, rest) == Joined(a, Joined(b, rest))
  {
    if a == [] {
      assert a + b == b;
    } else {
      JoinedAppend(a[1..], b, rest);
      assert (a + b)[1..] == a[1..] + b;
    }
  }

  lemma JoinedSnoc(a: seq<Unit>, u: Unit, rest: Units)
    ensures Joined(a + [u], rest) == Joined(a, Cons(u, rest))
  {
    JoinedAppend(a, [u], rest);
    assert [u][1..] == [];
    assert Joined([u], rest) == Cons(u, Joined([u][1..], rest));
  }

  lemma {:induction false} CountAnyAppend(a: seq<Unit>, b: seq<Unit>, rest: Units, c: Counting, n: nat, k: nat)
    ensures CountAny(a + b, rest, c, n, k) == CountAny(a, rest, c, n, k) + CountAny(b, rest, c, n, k)
    decreases |a|
  {
    if a == [] {
      assert a + b == b;
    } else {
      CountAnyAppend(a[1..], b, rest, c, n, k);
      assert (a + b)[1..] == a[1..] + b;
    }
  }

  lemma CountAnyOne(u: Unit, rest: Units, c: Counting, n: nat, k: nat)
    ensures CountAny([u], rest, c, n, k) == Count(Cons(u, rest), c, n, k)
  {
    assert [u][1..] == [];
    assert CountAny([u], rest, c, n, k) == Count(Cons(u, rest), c, n, k) + CountAny([u][1..], rest, c, n, k);
  }

  /** Too many fixed words: nothing. */
  lemma {:induction false} CountTooLong(us: Units, c: Counting, n: nat, k: nat)
    requires n > c.options.maxLength
    ensures Count(us, c, n, k) == 0
    decreases ListSize(us), 0, 0
  {
    match us
    case Nil =>
    case Cons(u, rest) =>
      match u
      case Word(_) => CountTooLong(rest, c, n + 1, k);
      case QMark => CountTooLong(rest, c, n + 1, k);
      case Star => CountTooLong(rest, c, n, k + 1);
      case Regex(t) =>
        CountTooLong(rest, c, n + 1, k);
        ScaledZero(|c.words(t)|);
      case Concat(cs) =>
        JoinedSize(cs, rest);
        CountTooLong(Joined(cs, rest), c, n, k);
      case Alternation(cs) => CountAnyTooLong(cs, rest, c, n, k);
  }

  lemma {:induction false} CountAnyTooLong(cs: seq<Unit>, rest: Units, c: Counting, n: nat, k: nat)
    requires n > c.options.maxLength
    ensures CountAny(cs, rest, c, n, k) == 0
    decreases SizeAll(cs) + ListSize(rest), 1, |cs|
  {
    if cs != [] {
      CountTooLong(Cons(cs[0], rest), c, n, k);
      CountAnyTooLong(cs[1..], rest, c, n, k);
    }
  }

  // ---------------------------------------------------------------- the expansion gives as many

  /** What a list of star queries gives when the units follow, all of it behind n fixed words and k stars. */
  function CountFrom(queries: seq<StarQuery>, us: Units, c: Counting, n: nat, k: nat): nat
  {
    if queries == [] then 0
    else Count(us, c, n + queries[0].minLength, k + StarCount(queries[0].units)) + CountFrom(queries[1..], us, c, n, k)
  }

  lemma CountFromCons(q: StarQuery, rest: seq<StarQuery>, us: Units, c: Counting, n: nat, k: nat)
    ensures CountFrom([q] + rest, us, c, n, k)
         == Count(us, c, n + q.minLength, k + StarCount(q.units)) + CountFrom(rest, us, c, n, k)
  {
    assert ([q] + rest)[1..] == rest;
  }

  lemma CountFromHead(queries: seq<StarQuery>, us: Units, c: Counting, n: nat, k: nat)
    requires queries != []
    ensures CountFrom(queries, us, c, n, k)
         == Count(us, c, n + queries[0].minLength, k + StarCount(queries[0].units)) + CountFrom(queries[1..], us, c, n, k)
  {
  }

  lemma {:induction false} CountFromAppend(a: seq<StarQuery>, b: seq<StarQuery>, us: Units, c: Counting, n: nat, k: nat)
    ensures CountFrom(a + b, us, c, n, k) == CountFrom(a, us, c, n, k) + CountFrom(b, us, c, n, k)
  {
    if a == [] {
      Sequences.EmptyLeft(b);
    } else {
      CountFromAppend(a[1..], b, us, c, n, k);
      Sequences.TailOfAppend(a, b);
    }
  }

  lemma CountFromOne(q: StarQuery, us: Units, c: Counting, n: nat, k: nat)
    ensures CountFrom([q], us, c, n, k) == Count(us, c, n + q.minLength, k + StarCount(q.units))
  {
    assert [q][1..] == [];
  }

  lemma {:induction false} ShortEnoughCounts(queries: seq<StarQuery>, us: Units, c: Counting, n: nat, k: nat)
    ensures CountFrom(ShortEnough(queries, c.options.maxLength), us, c, n, k) == CountFrom(queries, us, c, n, k)
  {
    if queries != [] {
      var q, limit := queries[0], c.options.maxLength;
      ShortEnoughCounts(queries[1..], us, c, n, k);
      if q.minLength <= limit {
        CountFromCons(q, ShortEnough(queries[1..], limit), us, c, n, k);
      } else {
        CountTooLong(us, c, n + q.minLength, k + StarCount(q.units));
        Sequences.EmptyLeft(ShortEnough(queries[1..], limit));
      }
    }
  }

  lemma PushedCounts(q: StarQuery, u: StarUnit)
    ensures StarCount(q.PushBack(u).units) == StarCount(q.units) + if u.SStar? then 1 else 0
    ensures q.PushBack(u).minLength == q.minLength + if u.SStar? then 0 else 1
  {
    assert (q.units + [u])[..|q.units|] == q.units;
  }

  /** One more star query in front of both lists, with the same count. */
  lemma BothCons(r: StarQuery, rs: seq<StarQuery>, us: Units, n: nat, k: nat, queries: seq<StarQuery>, us': Units, n': nat, k': nat,
                 c: Counting)
    requires queries != [] && CountFrom(rs, us, c, n, k) == CountFrom(queries[1..], us', c, n', k')
    requires Count(us, c, n + r.minLength, k + StarCount(r.units))
          == Count(us', c, n' + queries[0].minLength, k' + StarCount(queries[0].units))
    ensures CountFrom([r] + rs, us, c, n, k) == CountFrom(queries, us', c, n', k')
  {
    CountFromCons(r, rs, us, c, n, k);
    CountFromHead(queries, us', c, n', k');
  }

  lemma PushedCount(q: StarQuery, u: Unit, us: Units, c: Counting, n: nat, k: nat)
    requires u.Word? || u.QMark? || u.Star?
    ensures var r := q.PushBack(LeafOf(u));
            Count(us, c, n + r.minLength, k + StarCount(r.units)) == Count(Cons(u, us), c, n + q.minLength, k + StarCount(q.units))
  {
    PushedCounts(q, LeafOf(u));
    var n', k' := n + q.minLength, k + StarCount(q.units);
    if u.Star? {
      assert Count(Cons(u, us), c, n', k') == Count(us, c, n', k' + 1);
    } else {
      assert Count(Cons(u, us), c, n', k') == Count(us, c, n' + 1, k');
    }
  }

  lemma {:induction false} PushAllCounts(queries: seq<StarQuery>, u: Unit, us: Units, c: Counting, n: nat, k: nat)
    requires u.Word? || u.QMark? || u.Star?
    ensures CountFrom(PushAll(queries, LeafOf(u)), us, c, n, k) == CountFrom(queries, Cons(u, us), c, n, k)
  {
    if queries != [] {
      PushAllCounts(queries[1..], u, us, c, n, k);
      PushedCount(queries[0], u, us, c, n, k);
      BothCons(queries[0].PushBack(LeafOf(u)), PushAll(queries[1..], LeafOf(u)), us, n, k, queries, Cons(u, us), n, k, c);
    }
  }

  lemma AppendedCounts(q: StarQuery, r: StarQuery)
    ensures StarCount(q.Append(r).units) == StarCount(q.units) + StarCount(r.units)
    ensures q.Append(r).minLength == q.minLength + r.minLength
  {
    StarCountAppend(q.units, r.units);
  }

  lemma {:induction false} AppendAllCounts(queries: seq<StarQuery>, r: StarQuery, us: Units, c: Counting, n: nat, k: nat)
    ensures CountFrom(AppendAll(queries, r), us, c, n, k)
         == CountFrom(queries, us, c, n + r.minLength, k + StarCount(r.units))
  {
    if queries != [] {
      AppendAllCounts(queries[1..], r, us, c, n, k);
      AppendedCounts(queries[0], r);
      BothCons(queries[0].Append(r), AppendAll(queries[1..], r), us, n, k,
               queries, us, n + r.minLength, k + StarCount(r.units), c);
    }
  }

  lemma DroppedFromRow(q: StarQuery, after: seq<StarQuery>, us: Units, c: Counting, n: nat, k: nat)
    requires after != [] && q.minLength + after[0].minLength > c.options.maxLength
    ensures CountFrom(after, us, c, n + q.minLength, k + StarCount(q.units))
         == CountFrom(after[1..], us, c, n + q.minLength, k + StarCount(q.units))
  {
    CountTooLong(us, c, n + q.minLength + after[0].minLength, k + StarCount(q.units) + StarCount(after[0].units));
  }

  lemma {:induction false} RowCounts(q: StarQuery, after: seq<StarQuery>, us: Units, c: Counting, n: nat, k: nat)
    ensures CountFrom(Row(q, after, c.options.maxLength), us, c, n, k)
         == CountFrom(after, us, c, n + q.minLength, k + StarCount(q.units))
  {
    if after != [] {
      var r, rest := after[0], Row(q, after[1..], c.options.maxLength);
      RowCounts(q, after[1..], us, c, n, k);
      if q.minLength + r.minLength > c.options.maxLength {
        DroppedFromRow(q, after, us, c, n, k);
        Sequences.EmptyLeft(rest);
      } else {
        AppendedCounts(q, r);
        BothCons(q.Append(r), rest, us, n, k, after, us, n + q.minLength, k + StarCount(q.units), c);
      }
    }
  }

  /** The star queries in the place of a unit count like the unit. */
  ghost predicate CountLike(alt: seq<StarQuery>, u: Unit, us: Units, c: Counting)
  {
    forall n: nat, k: nat :: CountFrom(alt, us, c, n, k) == Count(Cons(u, us), c, n, k)
  }

  lemma {:induction false} ProductCounts(before: seq<StarQuery>, alt: seq<StarQuery>, u: Unit, us: Units, c: Counting, n: nat, k: nat)
    requires CountLike(alt, u, us, c)
    ensures CountFrom(Product(before, alt, c.options.maxLength), us, c, n, k) == CountFrom(before, Cons(u, us), c, n, k)
  {
    if before != [] {
      var q, limit := before[0], c.options.maxLength;
      ProductCounts(before[1..], alt, u, us, c, n, k);
      CountFromAppend(Row(q, alt, limit), Product(before[1..], alt, limit), us, c, n, k);
      RowCounts(q, alt, us, c, n, k);
      LikeAt(alt, u, us, c, n + q.minLength, k + StarCount(q.units));
    }
  }

  lemma LikeAt(alt: seq<StarQuery>, u: Unit, us: Units, c: Counting, n: nat, k: nat)
    requires CountLike(alt, u, us, c)
    ensures CountFrom(alt, us, c, n, k) == Count(Cons(u, us), c, n, k)
  {
  }

  lemma {:induction false} NoneCounts(queries: seq<StarQuery>, u: Unit, us: Units, c: Counting, n: nat, k: nat)
    requires CountLike([], u, us, c)
    ensures CountFrom(queries, Cons(u, us), c, n, k) == 0
  {
    if queries != [] {
      NoneCounts(queries[1..], u, us, c, n, k);
      LikeAt([], u, us, c, n + queries[0].minLength, k + StarCount(queries[0].units));
    }
  }

  lemma {:induction false} OneCounts(queries: seq<StarQuery>, r: StarQuery, u: Unit, us: Units, c: Counting, n: nat, k: nat)
    requires CountLike([r], u, us, c)
    ensures CountFrom(queries, us, c, n + r.minLength, k + StarCount(r.units)) == CountFrom(queries, Cons(u, us), c, n, k)
  {
    if queries != [] {
      var q := queries[0];
      OneCounts(queries[1..], r, u, us, c, n, k);
      CountFromOne(r, us, c, n + q.minLength, k + StarCount(q.units));
      LikeAt([r], u, us, c, n + q.minLength, k + StarCount(q.units));
    }
  }

  lemma AlternativesCount(queries: seq<StarQuery>, alt: seq<StarQuery>, u: Unit, us: Units, c: Counting, n: nat, k: nat)
    requires CountLike(alt, u, us, c)
    ensures CountFrom(AppendAlternatives(queries, alt, c.options.maxLength), us, c, n, k) == CountFrom(queries, Cons(u, us), c, n, k)
  {
    if |alt| == 0 {
      NoneCounts(queries, u, us, c, n, k);
    } else if |alt| == 1 {
      assert alt == [alt[0]];
      AppendAllCounts(queries, alt[0], us, c, n, k);
      OneCounts(queries, alt[0], u, us, c, n, k);
    } else {
      ProductCounts(queries, alt, u, us, c, n, k);
    }
  }

  lemma {:induction false} WordsCount(words: seq<Word>, us: Units, c: Counting, n: nat, k: nat)
    ensures AllRegexFree(WordUnits(words))
    ensures CountFrom(StarQueriesOfAny(WordUnits(words), c.options.maxLength), us, c, n, k)
         == Scaled(|words|, Count(us, c, n + 1, k))
  {
    WordUnitsAreWords(words);
    if words != [] {
      var front, last := words[..|words| - 1], Word(words[|words| - 1]);
      WordsCount(front, us, c, n, k);
      StarQueriesOfAnyAppend(WordUnits(front), [last], c.options.maxLength);
      assert [last][1..] == [];
      var q := EMPTY.PushBack(LeafOf(last));
      assert StarQueriesOfAny([last], c.options.maxLength) == [q];
      CountFromAppend(StarQueriesOfAny(WordUnits(front), c.options.maxLength), [q], us, c, n, k);
      CountFromOne(q, us, c, n, k);
      PushedCounts(EMPTY, LeafOf(last));
    }
  }

  /** The star queries of a unit count like the unit. */
  lemma {:induction false} UnitCounts(u: Unit, us: Units, c: Counting, n: nat, k: nat)
    ensures CountFrom(StarQueriesOf(Replaced(u, c.words), c.options.maxLength), us, c, n, k) == Count(Cons(u, us), c, n, k)
    decreases u, 2
  {
    var limit := c.options.maxLength;
    match u
    case Regex(t) => WordsCount(c.words(t), us, c, n, k);
    case Alternation(cs) => AnyCounts(cs, us, c, n, k);
    case Concat(cs) =>
      ShortEnoughCounts(ExtendAll([EMPTY], ReplacedAll(cs, c.words), limit), us, c, n, k);
      ExtendAllCounts([EMPTY], cs, us, c, n, k);
      CountFromOne(EMPTY, Joined(cs, us), c, n, k);
    case _ => LeafCounts(u, us, c, n, k);
  }

  lemma LeafCounts(u: Unit, us: Units, c: Counting, n: nat, k: nat)
    requires u.Word? || u.QMark? || u.Star?
    ensures CountFrom(StarQueriesOf(Replaced(u, c.words), c.options.maxLength), us, c, n, k) == Count(Cons(u, us), c, n, k)
  {
    CountFromOne(EMPTY.PushBack(LeafOf(u)), us, c, n, k);
    PushedCounts(EMPTY, LeafOf(u));
  }

  lemma {:induction false} AnyCounts(cs: seq<Unit>, us: Units, c: Counting, n: nat, k: nat)
    ensures CountFrom(StarQueriesOfAny(ReplacedAll(cs, c.words), c.options.maxLength), us, c, n, k) == CountAny(cs, us, c, n, k)
    decreases cs, 1
  {
    if cs != [] {
      UnitCounts(cs[0], us, c, n, k);
      AnyCounts(cs[1..], us, c, n, k);
      AlternativesCons(cs, c.words, c.options.maxLength);
      CountFromAppend(StarQueriesOf(Replaced(cs[0], c.words), c.options.maxLength),
                      StarQueriesOfAny(ReplacedAll(cs[1..], c.words), c.options.maxLength), us, c, n, k);
    }
  }

  lemma {:induction false} ExtendCounts(queries: seq<StarQuery>, u: Unit, us: Units, c: Counting, n: nat, k: nat)
    ensures CountFrom(Extend(queries, Replaced(u, c.words), c.options.maxLength), us, c, n, k)
         == CountFrom(queries, Cons(u, us), c, n, k)
    decreases u, 1
  {
    var limit := c.options.maxLength;
    match u
    case Regex(t) =>
      WordUnitsAreWords(c.words(t));
      forall n: nat, k: nat
        ensures CountFrom(StarQueriesOfAny(WordUnits(c.words(t)), limit), us, c, n, k) == Count(Cons(u, us), c, n, k)
      {
        WordsCount(c.words(t), us, c, n, k);
      }
      AlternativesCount(queries, StarQueriesOfAny(WordUnits(c.words(t)), limit), u, us, c, n, k);
    case Alternation(cs) =>
      forall n: nat, k: nat
        ensures CountFrom(StarQueriesOfAny(ReplacedAll(cs, c.words), limit), us, c, n, k) == Count(Cons(u, us), c, n, k)
      {
        AnyCounts(cs, us, c, n, k);
      }
      AlternativesCount(queries, StarQueriesOfAny(ReplacedAll(cs, c.words), limit), u, us, c, n, k);
    case Concat(cs) =>
      ExtendAllCounts(queries, cs, us, c, n, k);
      ConcatCounts(queries, cs, us, c, n, k);
    case _ => PushAllCounts(queries, u, us, c, n, k);
  }

  lemma {:induction false} ConcatCounts(queries: seq<StarQuery>, cs: seq<Unit>, us: Units, c: Counting, n: nat, k: nat)
    ensures CountFrom(queries, Joined(cs, us), c, n, k) == CountFrom(queries, Cons(Concat(cs), us), c, n, k)
  {
    if queries != [] {
      ConcatCounts(queries[1..], cs, us, c, n, k);
    }
  }

  lemma {:induction false} ExtendAllCounts(queries: seq<StarQuery>, cs: seq<Unit>, us: Units, c: Counting, n: nat, k: nat)
    ensures CountFrom(ExtendAll(queries, ReplacedAll(cs, c.words), c.options.maxLength), us, c, n, k)
         == CountFrom(queries, Joined(cs, us), c, n, k)
    decreases cs, 0
  {
    if cs != [] {
      var limit := c.options.maxLength;
      assert ReplacedAll(cs, c.words)[1..] == ReplacedAll(cs[1..], c.words);
      ExtendAllCounts(Extend(queries, Replaced(cs[0], c.words), limit), cs[1..], us, c, n, k);
      ExtendCounts(queries, cs[0], Joined(cs[1..], us), c, n, k);
    }
  }

  lemma {:induction false} EmittedIsCount(queries: seq<StarQuery>, c: Counting)
    requires !c.rooms
    ensures EmittedTotal(queries, c.options) == CountFrom(queries, Nil, c, 0, 0)
  {
    if queries != [] {
      var front, last := queries[..|queries| - 1], queries[|queries| - 1];
      EmittedIsCount(front, c);
      assert queries == front + [last];
      CountFromAppend(front, [last], Nil, c, 0, 0);
      CountFromOne(last, Nil, c, 0, 0);
    }
  }

  /** The norm queries that a tree stands for. */
  function TreeCount(u: Unit, words: RegexWords, options: Options): nat
  {
    Count(Cons(u, Nil), Counting(words, options, false), 0, 0)
  }

  /** A tree gives exactly as many norm queries as are counted on it. */
  lemma EmittedByTree(u: Unit, words: RegexWords, options: Options)
    ensures EmittedTotal(StarQueriesOf(Replaced(u, words), options.maxLength), options) == TreeCount(u, words, options)
  {
    var c := Counting(words, options, false);
    EmittedIsCount(StarQueriesOf(Replaced(u, words), options.maxLength), c);
    UnitCounts(u, Nil, c, 0, 0);
  }
}
