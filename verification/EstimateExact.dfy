/** Where the estimate of the norm query counter is exact (src/netspeak/QueryNormalizer.cpp). */
module EstimateExact {
  import opened MachineInts
  import opened Combinatorics
  import opened LengthRanges
  import opened SimpleQueries
  import opened StarQueries
  import opened NormQueries
  import opened NormQueryCounters
  import opened RegexReplacement
  import opened NormCounts

  // ---------------------------------------------------------------- a closed form for units in a row

  function OfKind(cs: seq<Unit>, tag: Tag): nat
  {
    if cs == [] then 0 else (if cs[0].Tag() == tag then 1 else 0) + OfKind(cs[1..], tag)
  }

  ghost predicate AllLeaves(cs: seq<Unit>)
  {
    forall i :: 0 <= i < |cs| ==> !cs[i].Concat? && !cs[i].Alternation?
  }

  lemma {:induction false} RowLengths(cs: seq<Unit>)
    requires AllLeaves(cs)
    ensures RangeOfAll(cs).Range? && RangeOfAll(cs).min == |cs| - OfKind(cs, STAR)
  {
    if cs != [] {
      RowLengths(cs[1..]);
    }
  }

  lemma TimesRoom(m: nat, r: nat, b: nat, k: nat)
    ensures Pow(m, r + 1) * Pow(b, k) == m * (Pow(m, r) * Pow(b, k))
    ensures Pow(m, r) * Pow(b, k + 1) == b * (Pow(m, r) * Pow(b, k))
  {
    var x, y := Pow(m, r), Pow(b, k);
    MulAssoc(m, x, y);
    MulAssoc(x, b, y);
    MulAssoc(b, x, y);
    assert x * b == b * x;
  }

  /** The factor of a star: one for every number of words that it may take in the room that the others leave. */
  lemma StarIdeal(whole: nat, m: nat, limit: uint32)
    requires whole <= limit
    ensures Ideal(Star, Max(whole - MinLen(Star), 0), m, limit) == limit - whole + 1
  {
    var margin := Max(whole - MinLen(Star), 0);
    assert margin == whole;
    Unwrapped(limit - whole, TWO_32);
  }

  lemma {:induction false} RowProduct(cs: seq<Unit>, whole: nat, m: nat, limit: uint32)
    requires AllLeaves(cs) && whole <= limit
    ensures IdealProduct(cs, |cs|, whole, m, limit) == Pow(m, OfKind(cs, REGEX)) * Pow(limit - whole + 1, OfKind(cs, STAR))
  {
    if cs != [] {
      RowProduct(cs[1..], whole, m, limit);
      IdealProductCons(cs, |cs|, whole, m, limit);
      if cs[0].Star? { StarIdeal(whole, m, limit); }
      TimesRoom(m, OfKind(cs[1..], REGEX), limit - whole + 1, OfKind(cs[1..], STAR));
    }
  }

  /** The estimate of words, question marks, regexes and stars in a row: m for every regex, and for every star the room
      that all fixed words together leave. */
  lemma IdealOfRow(cs: seq<Unit>, m: nat, limit: uint32)
    requires AllLeaves(cs) && |cs| - OfKind(cs, STAR) <= limit && |cs| - OfKind(cs, STAR) < UINT32_MAX
    ensures Ideal(Concat(cs), 0, m, limit)
         == Pow(m, OfKind(cs, REGEX)) * Pow(limit - (|cs| - OfKind(cs, STAR)) + 1, OfKind(cs, STAR))
  {
    RowLengths(cs);
    RowProduct(cs, |cs| - OfKind(cs, STAR), m, limit);
  }

  // ---------------------------------------------------------------- trees whose alternatives are equally long

  /** Every path has the same number of fixed words. */
  predicate Level(u: Unit)
  {
    && RangeOf(u).Range?
    && match u
       case Concat(cs) => forall c | c in cs :: Level(c)
       case Alternation(cs) => forall c | c in cs :: Level(c) && RangeOf(c).min == RangeOf(u).min
       case _ => true
  }

  predicate AllLevel(us: Units)
  {
    us.Cons? ==> Level(us.head) && AllLevel(us.tail)
  }

  function Mins(us: Units): nat
    requires AllLevel(us)
  {
    match us
    case Nil => 0
    case Cons(u, rest) => RangeOf(u).min + Mins(rest)
  }

  lemma {:induction false} JoinedLevel(cs: seq<Unit>, rest: Units)
    requires (forall c | c in cs :: Level(c)) && AllLevel(rest) && RangeOfAll(cs).Range?
    ensures AllLevel(Joined(cs, rest)) && Mins(Joined(cs, rest)) == RangeOfAll(cs).min + Mins(rest)
  {
    if cs != [] {
      assert cs[0] in cs;
      JoinedLevel(cs[1..], rest);
    }
  }

  /** The estimates of units in a row whose fixed words make up the whole. */
  function ListIdeal(us: Units, whole: nat, m: nat, limit: uint32): nat
  {
    match us
    case Nil => 1
    case Cons(u, rest) => Ideal(u, Max(whole - MinLen(u), 0), m, limit) * ListIdeal(rest, whole, m, limit)
  }

  lemma {:induction false} JoinedIdeal(cs: seq<Unit>, rest: Units, whole: nat, m: nat, limit: uint32)
    ensures ListIdeal(Joined(cs, rest), whole, m, limit) == IdealProduct(cs, |cs|, whole, m, limit) * ListIdeal(rest, whole, m, limit)
  {
    if cs != [] {
      JoinedIdeal(cs[1..], rest, whole, m, limit);
      IdealProductCons(cs, |cs|, whole, m, limit);
      MulAssoc(Ideal(cs[0], Max(whole - MinLen(cs[0]), 0), m, limit), IdealProduct(cs[1..], |cs| - 1, whole, m, limit),
               ListIdeal(rest, whole, m, limit));
    }
  }

  /** Each regex stands for m words. */
  ghost predicate Exactly(words: RegexWords, m: nat)
  {
    forall t :: |words(t)| == m
  }

  /** Where what is counted lies within the limits. */
  ghost predicate Fits(us: Units, c: Counting, whole: nat, n: nat)
  {
    && c.rooms && AllLevel(us) && whole == n + Mins(us)
    && c.options.minLength <= whole <= c.options.maxLength && whole < UINT32_MAX
  }

  lemma Swapped(p: nat, x: nat, y: nat)
    ensures p * (x * y) == x * (p * y)
  {
    MulAssoc(p, x, y);
    MulAssoc(x, p, y);
    assert p * x == x * p;
  }

  lemma StarStep(b: nat, k: nat, y: nat)
    ensures Pow(b, k + 1) * y == Pow(b, k) * (b * y)
  {
    MulAssoc(Pow(b, k), b, y);
    assert Pow(b, k + 1) == Pow(b, k) * b;
  }

  lemma SumStep(p: nat, x: nat, s: nat, y: nat)
    ensures p * ((x + s) * y) == p * (x * y) + p * (s * y)
  {
    Distribute(x, s, y);
    Distribute(x * y, s * y, p);
  }

  lemma LevelStar(rest: Units, c: Counting, m: nat, whole: nat, n: nat, k: nat)
    requires whole <= c.options.maxLength
    requires Count(rest, c, n, k + 1) == Pow(c.options.maxLength - whole + 1, k + 1) * ListIdeal(rest, whole, m, c.options.maxLength)
    ensures Count(Cons(Star, rest), c, n, k)
         == Pow(c.options.maxLength - whole + 1, k) * ListIdeal(Cons(Star, rest), whole, m, c.options.maxLength)
  {
    StarIdeal(whole, m, c.options.maxLength);
    StarStep(c.options.maxLength - whole + 1, k, ListIdeal(rest, whole, m, c.options.maxLength));
    assert Count(Cons(Star, rest), c, n, k) == Count(rest, c, n, k + 1);
  }

  lemma LevelRegex(t: string, rest: Units, c: Counting, m: nat, whole: nat, n: nat, k: nat)
    requires whole <= c.options.maxLength && |c.words(t)| == m
    requires Count(rest, c, n + 1, k) == Pow(c.options.maxLength - whole + 1, k) * ListIdeal(rest, whole, m, c.options.maxLength)
    ensures Count(Cons(Regex(t), rest), c, n, k)
         == Pow(c.options.maxLength - whole + 1, k) * ListIdeal(Cons(Regex(t), rest), whole, m, c.options.maxLength)
  {
    ScaledIsProduct(m, Count(rest, c, n + 1, k));
    Swapped(Pow(c.options.maxLength - whole + 1, k), m, ListIdeal(rest, whole, m, c.options.maxLength));
  }

  lemma LevelConcat(cs: seq<Unit>, rest: Units, c: Counting, m: nat, whole: nat, n: nat, k: nat)
    requires RangeOfAll(cs).Range? && RangeOfAll(cs).min <= whole <= c.options.maxLength && whole < UINT32_MAX
    requires Count(Joined(cs, rest), c, n, k)
          == Pow(c.options.maxLength - whole + 1, k) * ListIdeal(Joined(cs, rest), whole, m, c.options.maxLength)
    ensures Count(Cons(Concat(cs), rest), c, n, k)
         == Pow(c.options.maxLength - whole + 1, k) * ListIdeal(Cons(Concat(cs), rest), whole, m, c.options.maxLength)
  {
    JoinedIdeal(cs, rest, whole, m, c.options.maxLength);
    ConcatIdeal(cs, whole, m, c.options.maxLength);
  }

  /** On such trees the estimate is the sum over the paths of the rooms of their stars. */
  lemma {:induction false} LevelCount(us: Units, c: Counting, m: nat, whole: nat, n: nat, k: nat)
    requires Fits(us, c, whole, n) && Exactly(c.words, m)
    ensures Count(us, c, n, k) == Pow(c.options.maxLength - whole + 1, k) * ListIdeal(us, whole, m, c.options.maxLength)
    decreases ListSize(us), 0, 0
  {
    match us
    case Nil =>
    case Cons(u, rest) =>
      match u
      case Word(_) => LevelCount(rest, c, m, whole, n + 1, k);
      case QMark => LevelCount(rest, c, m, whole, n + 1, k);
      case Star =>
        LevelCount(rest, c, m, whole, n, k + 1);
        LevelStar(rest, c, m, whole, n, k);
      case Regex(t) =>
        LevelCount(rest, c, m, whole, n + 1, k);
        LevelRegex(t, rest, c, m, whole, n, k);
      case Concat(cs) =>
        JoinedSize(cs, rest);
        JoinedLevel(cs, rest);
        LevelCount(Joined(cs, rest), c, m, whole, n, k);
        LevelConcat(cs, rest, c, m, whole, n, k);
      case Alternation(cs) =>
        LevelAny(cs, rest, c, m, whole, n, k, RangeOf(u).min);
        assert Max(whole - MinLen(u), 0) == whole - RangeOf(u).min;
  }

  lemma ConcatIdeal(cs: seq<Unit>, whole: nat, m: nat, limit: uint32)
    requires RangeOfAll(cs).Range? && RangeOfAll(cs).min <= whole < UINT32_MAX
    ensures Ideal(Concat(cs), Max(whole - MinLen(Concat(cs)), 0), m, limit) == IdealProduct(cs, |cs|, whole, m, limit)
  {
  }

  lemma {:induction false} LevelAny(cs: seq<Unit>, rest: Units, c: Counting, m: nat, whole: nat, n: nat, k: nat, min: nat)
    requires forall u | u in cs :: Level(u) && RangeOf(u).min == min
    requires c.rooms && AllLevel(rest) && whole == n + min + Mins(rest) && Exactly(c.words, m)
    requires c.options.minLength <= whole <= c.options.maxLength && whole < UINT32_MAX
    ensures CountAny(cs, rest, c, n, k)
         == Pow(c.options.maxLength - whole + 1, k)
            * (IdealSum(cs, |cs|, whole - min, m, c.options.maxLength) * ListIdeal(rest, whole, m, c.options.maxLength))
    decreases SizeAll(cs) + ListSize(rest), 1, |cs|
  {
    if cs != [] {
      var limit := c.options.maxLength;
      assert cs[0] in cs;
      LevelCount(Cons(cs[0], rest), c, m, whole, n, k);
      LevelAny(cs[1..], rest, c, m, whole, n, k, min);
      IdealSumCons(cs, |cs|, whole - min, m, limit);
      SumStep(Pow(limit - whole + 1, k), Ideal(cs[0], whole - min, m, limit), IdealSum(cs[1..], |cs| - 1, whole - min, m, limit),
              ListIdeal(rest, whole, m, limit));
    }
  }

  // ---------------------------------------------------------------- at most one star on each path

  function MaxStars(u: Unit): nat
    decreases u, 1
  {
    match u
    case Star => 1
    case Concat(cs) => MaxStarsSum(cs)
    case Alternation(cs) => MaxStarsMost(cs)
    case _ => 0
  }

  function MaxStarsSum(cs: seq<Unit>): nat
    decreases cs, 0
  {
    if cs == [] then 0 else MaxStars(cs[0]) + MaxStarsSum(cs[1..])
  }

  function MaxStarsMost(cs: seq<Unit>): nat
    decreases cs, 0
  {
    if cs == [] then 0 else Max(MaxStars(cs[0]), MaxStarsMost(cs[1..]))
  }

  function StarsIn(us: Units): nat
  {
    match us
    case Nil => 0
    case Cons(u, rest) => MaxStars(u) + StarsIn(rest)
  }

  lemma {:induction false} JoinedStars(cs: seq<Unit>, rest: Units)
    ensures StarsIn(Joined(cs, rest)) == MaxStarsSum(cs) + StarsIn(rest)
  {
    if cs != [] {
      JoinedStars(cs[1..], rest);
    }
  }

  lemma OneRoom(a: nat, k: nat)
    requires k <= 1
    ensures Choose(k + a, k) == Pow(a + 1, k)
  {
    ChooseSmall(k + a);
    assert Pow(a + 1, 0) == 1 && Pow(a + 1, 1) == a + 1;
  }

  /** A single star has as many fillings as it has room. */
  lemma {:induction false} RoomsAreFillings(us: Units, c: Counting, d: Counting, n: nat, k: nat)
    requires k + StarsIn(us) <= 1 && c.words == d.words && c.options == d.options && c.rooms && !d.rooms
    ensures Count(us, c, n, k) == Count(us, d, n, k)
    decreases ListSize(us), 0, 0
  {
    match us
    case Nil => if n <= c.options.maxLength { OneRoom(c.options.maxLength - n, k); }
    case Cons(u, rest) =>
      match u
      case Word(_) => RoomsAreFillings(rest, c, d, n + 1, k);
      case QMark => RoomsAreFillings(rest, c, d, n + 1, k);
      case Star => RoomsAreFillings(rest, c, d, n, k + 1);
      case Regex(t) => RoomsAreFillings(rest, c, d, n + 1, k);
      case Concat(cs) =>
        JoinedSize(cs, rest);
        JoinedStars(cs, rest);
        RoomsAreFillings(Joined(cs, rest), c, d, n, k);
      case Alternation(cs) => AnyRoomsAreFillings(cs, rest, c, d, n, k);
  }

  lemma {:induction false} AnyRoomsAreFillings(cs: seq<Unit>, rest: Units, c: Counting, d: Counting, n: nat, k: nat)
    requires k + MaxStarsMost(cs) + StarsIn(rest) <= 1
    requires c.words == d.words && c.options == d.options && c.rooms && !d.rooms
    ensures CountAny(cs, rest, c, n, k) == CountAny(cs, rest, d, n, k)
    decreases SizeAll(cs) + ListSize(rest), 1, |cs|
  {
    if cs != [] {
      RoomsAreFillings(Cons(cs[0], rest), c, d, n, k);
      AnyRoomsAreFillings(cs[1..], rest, c, d, n, k);
    }
  }

  // ---------------------------------------------------------------- the estimate is attained

  lemma OnlyUnit(u: Unit, m: nat, limit: uint32)
    requires RangeOf(u).Range? && RangeOf(u).min < UINT32_MAX
    ensures ListIdeal(Cons(u, Nil), RangeOf(u).min, m, limit) == Ideal(u, 0, m, limit)
  {
    assert MinLen(u) == RangeOf(u).min;
  }

  lemma LevelTree(u: Unit, c: Counting, m: nat)
    requires Level(u) && c.rooms && Exactly(c.words, m)
    requires c.options.minLength <= RangeOf(u).min <= c.options.maxLength && RangeOf(u).min < UINT32_MAX
    ensures Count(Cons(u, Nil), c, 0, 0) == Ideal(u, 0, m, c.options.maxLength)
  {
    assert Mins(Cons(u, Nil)) == RangeOf(u).min;
    LevelCount(Cons(u, Nil), c, m, RangeOf(u).min, 0, 0);
    OnlyUnit(u, m, c.options.maxLength);
    NoRoom(c.options.maxLength - RangeOf(u).min + 1, ListIdeal(Cons(u, Nil), RangeOf(u).min, m, c.options.maxLength));
  }

  lemma NoRoom(b: nat, y: nat)
    ensures Pow(b, 0) * y == y
  {
  }

  /** A tree whose alternatives are equally long and whose paths have at most one star each gives exactly as many norm
      queries as are estimated, when each regex stands for m words. */
  lemma EstimateIsAttained(u: Unit, words: RegexWords, m: nat, options: Options)
    requires Level(u) && MaxStars(u) <= 1 && Exactly(words, m)
    requires options.minLength <= RangeOf(u).min <= options.maxLength && RangeOf(u).min < UINT32_MAX
    ensures EmittedTotal(StarQueriesOf(Replaced(u, words), options.maxLength), options) == Ideal(u, 0, m, options.maxLength)
  {
    var c := Counting(words, options, true);
    LevelTree(u, c, m);
    RoomsAreFillings(Cons(u, Nil), c, c.(rooms := false), 0, 0);
    EmittedByTree(u, words, options);
  }
}
