/** NormQueryCounter (src/netspeak/QueryNormalizer.cpp): an estimate of how many norm queries a tree will give. */
module NormQueryCounters {
  import opened MachineInts
  import opened Combinatorics
  import opened SimpleQueries
  import opened StarQueries
  import opened NormQueries

  // ---------------------------------------------------------------- saturating arithmetic

  function SafeAdd(a: uint64, b: uint64): uint64
  {
    var sum := (a + b) % TWO_64;
    if sum < a then UINT64_MAX else sum
  }

  function SafeMult(a: uint64, b: uint64): uint64
  {
    var prod := (a * b) % TWO_64;
    if prod < a || prod < b then UINT64_MAX else prod
  }

  /** The sum is exact or saturates. */
  lemma SafeAddSaturates(a: uint64, b: uint64)
    ensures SafeAdd(a, b) == Min(a + b, UINT64_MAX)
  {
  }

  /** The product of non-zero factors is exact when it fits, and never looks like zero. */
  lemma SafeMultExact(a: uint64, b: uint64)
    requires a > 0 && b > 0
    ensures a * b <= UINT64_MAX ==> SafeMult(a, b) == a * b
    ensures SafeMult(a, b) > 0
  {
    MulMonotone(a, 1, b);
    MulMonotone(b, 1, a);
  }

  /** Whether an overflow is noticed depends on the last of a additions of b alone, a being the smaller factor: it has
      to cross a multiple of 2^64, or to end right before one. A first overflow is therefore always noticed, and the
      overflows that pass are those of products whose last addition stays between two multiples. */
  lemma SafeMultDetects(a: uint64, b: uint64)
    requires 0 < a <= b
    ensures a * b > UINT64_MAX ==>
              (SafeMult(a, b) == UINT64_MAX <==> (a - 1) * b / TWO_64 < a * b / TWO_64 || (a * b + 1) % TWO_64 == 0)
    ensures (a - 1) * b <= UINT64_MAX ==> SafeMult(a, b) == Min(a * b, UINT64_MAX)
    ensures SafeMult(a, b) == SafeMult(b, a)
  {
    SafeMultExact(a, b);
    assert a * b == (a - 1) * b + b;
    WrappedSum((a - 1) * b, b);
  }

  /** Adding less than 2^64 either keeps the number of multiples or raises it by one. */
  lemma WrappedSum(p: nat, b: uint64)
    ensures (p + b) / TWO_64 == p / TWO_64 <==> (p + b) % TWO_64 == p % TWO_64 + b
    ensures (p + b) / TWO_64 > p / TWO_64 <==> (p + b) % TWO_64 < b
    ensures (p + b + 1) % TWO_64 == 0 <==> (p + b) % TWO_64 == UINT64_MAX
  {
  }

  /** Some overflows pass unnoticed. */
  lemma SafeMultMisses()
    ensures SafeMult(TWO_32 + 1, TWO_32 + 1) == 2 * TWO_32 + 1
    ensures (TWO_32 + 1) * (TWO_32 + 1) > UINT64_MAX
  {
  }

  /** A constant, or a function of the number of words per regex. */
  datatype UnitResult = Constant(constant: uint64) | Function(function_: uint64 -> uint64)
  {
    /** The estimate when every regex is replaced by m words. */
    function At(m: uint64): uint64
    {
      match this
      case Constant(c) => c
      case Function(f) => f(m)
    }

    function Plus(rhs: UnitResult): UnitResult
    {
      if Constant? && constant == UINT64_MAX then Constant(UINT64_MAX)
      else if rhs.Constant? && rhs.constant == UINT64_MAX then Constant(UINT64_MAX)
      else if Constant? && rhs.Constant? then Constant(SafeAdd(constant, rhs.constant))
      else if Constant? then Function(m => SafeAdd(constant, rhs.function_(m)))
      else if rhs.Constant? then Function(m => SafeAdd(rhs.constant, function_(m)))
      else Function(m => SafeAdd(function_(m), rhs.function_(m)))
    }

    function Times(rhs: UnitResult): UnitResult
    {
      if Constant? && constant == 0 then Constant(0)
      else if rhs.Constant? && rhs.constant == 0 then Constant(0)
      else if Constant? && constant == UINT64_MAX then Constant(UINT64_MAX)
      else if rhs.Constant? && rhs.constant == UINT64_MAX then Constant(UINT64_MAX)
      else if Constant? && rhs.Constant? then Constant(SafeMult(constant, rhs.constant))
      else if Constant? then Function(m => SafeMult(constant, rhs.function_(m)))
      else if rhs.Constant? then Function(m => SafeMult(rhs.constant, function_(m)))
      else Function(m => SafeMult(function_(m), rhs.function_(m)))
    }
  }

  lemma PlusAt(a: UnitResult, b: UnitResult, m: uint64)
    ensures a.Plus(b).At(m) == SafeAdd(a.At(m), b.At(m))
  {
    SafeAddSaturates(a.At(m), b.At(m));
    SafeAddSaturates(b.At(m), a.At(m));
  }

  lemma SafeMultSymmetric(a: uint64, b: uint64)
    ensures SafeMult(a, b) == SafeMult(b, a)
  {
    assert a * b == b * a;
  }

  lemma SafeMultSaturated(b: uint64)
    requires b > 0
    ensures SafeMult(UINT64_MAX, b) == UINT64_MAX
  {
    assert UINT64_MAX * b == (b - 1) * TWO_64 + (TWO_64 - b);
  }

  lemma TimesAt(a: UnitResult, b: UnitResult, m: uint64)
    requires a.At(m) > 0 && b.At(m) > 0
    ensures a.Times(b).At(m) == SafeMult(a.At(m), b.At(m))
  {
    SafeMultSymmetric(a.At(m), b.At(m));
    SafeMultSaturated(a.At(m));
    SafeMultSaturated(b.At(m));
  }

  /** An estimate is the ideal number whenever that fits into 64 bits, and zero only when that is zero. */
  ghost predicate Tracks(estimate: uint64, ideal: nat)
  {
    (ideal <= UINT64_MAX ==> estimate == ideal) && (ideal > 0 ==> estimate > 0)
  }

  lemma PlusTracks(a: uint64, b: uint64, i: nat, j: nat)
    requires Tracks(a, i) && Tracks(b, j)
    ensures Tracks(SafeAdd(a, b), i + j)
  {
    SafeAddSaturates(a, b);
  }

  lemma FactorFits(i: nat, j: nat, limit: nat)
    requires i > 0 && j > 0 && i * j <= limit
    ensures i <= limit && j <= limit
    ensures i == limit ==> j == 1
    ensures j == limit ==> i == 1
  {
    MulMonotone(i, 1, j);
    MulMonotone(j, 1, i);
    MulStep(i, 1, j);
    MulStep(j, 1, i);
  }

  lemma TimesTracks(a: uint64, b: uint64, i: nat, j: nat)
    requires Tracks(a, i) && Tracks(b, j) && i > 0 && j > 0
    ensures i * j > 0 && Tracks(SafeMult(a, b), i * j)
  {
    MulMonotone(i, 1, j);
    SafeMultExact(a, b);
    if i * j <= UINT64_MAX {
      FactorFits(i, j, UINT64_MAX);
      assert a * b == i * j;
    }
  }

  // ---------------------------------------------------------------- the ideal estimate

  /** The 32-bit difference in the factor of a star wraps when the margin exceeds the limit. */
  function Room(margin: nat, limit: uint32): nat
    requires margin <= UINT32_MAX
  {
    (limit - margin) % TWO_32
  }

  /** The estimate without machine limits, for m words per regex and a margin of fixed words around the unit. */
  function Ideal(u: Unit, margin: nat, m: nat, limit: uint32): nat
    decreases u, 0
  {
    match u
    case Word(_) => 1
    case QMark => 1
    case Star => 1 + Room(Min(margin, UINT32_MAX), limit)
    case Regex(_) => m
    case Alternation(cs) => IdealSum(cs, |cs|, margin, m, limit)
    case Concat(cs) =>
      if SumOfMins(cs) == UINT32_MAX then 0 else IdealProduct(cs, |cs|, margin + SumOfMins(cs), m, limit)
  }

  function IdealSum(cs: seq<Unit>, n: nat, margin: nat, m: nat, limit: uint32): nat
    requires n <= |cs|
    decreases cs, n
  {
    if n == 0 then 0 else IdealSum(cs, n - 1, margin, m, limit) + Ideal(cs[n - 1], margin, m, limit)
  }

  /** The product over the first n parts; the margin of each is everything except its own minimum length. */
  function IdealProduct(cs: seq<Unit>, n: nat, whole: nat, m: nat, limit: uint32): nat
    requires n <= |cs|
    decreases cs, n
  {
    if n == 0 then 1
    else IdealProduct(cs, n - 1, whole, m, limit) * Ideal(cs[n - 1], Max(whole - MinLen(cs[n - 1]), 0), m, limit)
  }

  /** A unit that accepts something has a positive estimate. */
  lemma {:induction false} IdealPositive(u: Unit, margin: nat, m: nat, limit: uint32)
    requires m > 0 && MinLen(u) != UINT32_MAX && Weight(u) < UINT32_MAX
    ensures Ideal(u, margin, m, limit) > 0
    decreases u, 0
  {
    match u
    case Alternation(cs) =>
      var i := ReachableChild(cs);
      IdealSumPositive(cs, |cs|, i, margin, m, limit);
    case Concat(cs) =>
      IdealProductPositive(cs, |cs|, margin + SumOfMins(cs), m, limit);
    case _ =>
  }

  lemma {:induction false} ReachableChild(cs: seq<Unit>) returns (i: nat)
    requires LeastOfMins(cs) != UINT32_MAX && WeightMax(cs) < UINT32_MAX
    ensures i < |cs| && MinLen(cs[i]) != UINT32_MAX && Weight(cs[i]) < UINT32_MAX
  {
    RangeWithinWeight(cs[0]);
    RangeOfAnyWithin(cs[1..]);
    if MinLen(cs[0]) != UINT32_MAX {
      i := 0;
    } else {
      i := ReachableChild(cs[1..]);
      i := i + 1;
    }
  }

  lemma {:induction false} IdealSumPositive(cs: seq<Unit>, n: nat, i: nat, margin: nat, m: nat, limit: uint32)
    requires m > 0 && i < n <= |cs| && MinLen(cs[i]) != UINT32_MAX && Weight(cs[i]) < UINT32_MAX
    ensures IdealSum(cs, n, margin, m, limit) > 0
    decreases cs, n
  {
    if n - 1 == i {
      IdealPositive(cs[i], margin, m, limit);
    } else {
      IdealSumPositive(cs, n - 1, i, margin, m, limit);
    }
  }

  lemma {:induction false} EveryChildReachable(cs: seq<Unit>, i: nat)
    requires SumOfMins(cs) != UINT32_MAX && WeightSum(cs) < UINT32_MAX && i < |cs|
    ensures MinLen(cs[i]) != UINT32_MAX && Weight(cs[i]) < UINT32_MAX
    ensures MinLen(cs[i]) <= SumOfMins(cs) <= WeightSum(cs)
    ensures SumOfMins(cs) - MinLen(cs[i]) + Weight(cs[i]) <= WeightSum(cs)
  {
    RangeWithinWeight(cs[0]);
    RangeOfAllWithin(cs[1..]);
    if i > 0 {
      EveryChildReachable(cs[1..], i - 1);
    }
  }

  lemma {:induction false} IdealProductPositive(cs: seq<Unit>, n: nat, whole: nat, m: nat, limit: uint32)
    requires m > 0 && n <= |cs| && SumOfMins(cs) != UINT32_MAX && WeightSum(cs) < UINT32_MAX
    ensures IdealProduct(cs, n, whole, m, limit) > 0
    decreases cs, n
  {
    if n > 0 {
      EveryChildReachable(cs, n - 1);
      var margin := Max(whole - MinLen(cs[n - 1]), 0);
      IdealProductPositive(cs, n - 1, whole, m, limit);
      IdealPositive(cs[n - 1], margin, m, limit);
      MulMonotone(IdealProduct(cs, n - 1, whole, m, limit), 1, Ideal(cs[n - 1], margin, m, limit));
    }
  }

  /** More words per regex never lower the estimate. */
  lemma {:induction false} IdealMonotone(u: Unit, margin: nat, m: nat, m': nat, limit: uint32)
    requires m <= m'
    ensures Ideal(u, margin, m, limit) <= Ideal(u, margin, m', limit)
    decreases u, 0
  {
    match u
    case Alternation(cs) => IdealSumMonotone(cs, |cs|, margin, m, m', limit);
    case Concat(cs) => IdealProductMonotone(cs, |cs|, margin + SumOfMins(cs), m, m', limit);
    case _ =>
  }

  lemma {:induction false} IdealSumMonotone(cs: seq<Unit>, n: nat, margin: nat, m: nat, m': nat, limit: uint32)
    requires n <= |cs| && m <= m'
    ensures IdealSum(cs, n, margin, m, limit) <= IdealSum(cs, n, margin, m', limit)
    decreases cs, n
  {
    if n > 0 {
      IdealSumMonotone(cs, n - 1, margin, m, m', limit);
      IdealMonotone(cs[n - 1], margin, m, m', limit);
    }
  }

  lemma {:induction false} IdealProductMonotone(cs: seq<Unit>, n: nat, whole: nat, m: nat, m': nat, limit: uint32)
    requires n <= |cs| && m <= m'
    ensures IdealProduct(cs, n, whole, m, limit) <= IdealProduct(cs, n, whole, m', limit)
    decreases cs, n
  {
    if n > 0 {
      var margin := Max(whole - MinLen(cs[n - 1]), 0);
      IdealProductMonotone(cs, n - 1, whole, m, m', limit);
      IdealMonotone(cs[n - 1], margin, m, m', limit);
      MulMonotoneBoth(IdealProduct(cs, n - 1, whole, m, limit), IdealProduct(cs, n - 1, whole, m', limit),
                      Ideal(cs[n - 1], margin, m, limit), Ideal(cs[n - 1], margin, m', limit));
    }
  }

  lemma MulMonotoneBoth(a: nat, b: nat, c: nat, d: nat)
    requires a <= b && c <= d
    ensures a * c <= b * d
  {
    MulMonotone(a, c, d);
    MulMonotone(d, a, b);
  }

  // ---------------------------------------------------------------- the estimate, as the program computes it

  datatype MinLengthMargin = MinLengthMargin(before: nat, after: nat)
  {
    function Total(): nat
    {
      before + after
    }

    function Plus(rhs: MinLengthMargin): MinLengthMargin
    {
      MinLengthMargin(before + rhs.before, after + rhs.after)
    }
  }

  /** The estimate for m words per regex, with the program's arithmetic. */
  function Estimate(u: Unit, margin: nat, m: uint64, limit: uint32): uint64
    decreases u, 0
  {
    match u
    case Word(_) => 1
    case QMark => 1
    case Star => 1 + Room(Min(margin, UINT32_MAX), limit)
    case Regex(_) => m
    case Alternation(cs) => EstimateSum(cs, |cs|, margin, m, limit)
    case Concat(cs) =>
      if SumOfMins(cs) == UINT32_MAX then 0 else EstimateProduct(cs, |cs|, margin + SumOfMins(cs), m, limit)
  }

  function EstimateSum(cs: seq<Unit>, n: nat, margin: nat, m: uint64, limit: uint32): uint64
    requires n <= |cs|
    decreases cs, n
  {
    if n == 0 then 0 else SafeAdd(EstimateSum(cs, n - 1, margin, m, limit), Estimate(cs[n - 1], margin, m, limit))
  }

  function EstimateProduct(cs: seq<Unit>, n: nat, whole: nat, m: uint64, limit: uint32): uint64
    requires n <= |cs|
    decreases cs, n
  {
    if n == 0 then 1
    else SafeMult(EstimateProduct(cs, n - 1, whole, m, limit), Estimate(cs[n - 1], Max(whole - MinLen(cs[n - 1]), 0), m, limit))
  }

  /** The estimate is exact whenever the ideal one fits into 64 bits. */
  lemma {:induction false} EstimateTracks(u: Unit, margin: nat, m: uint64, limit: uint32)
    requires m > 0 && Weight(u) < UINT32_MAX
    ensures Tracks(Estimate(u, margin, m, limit), Ideal(u, margin, m, limit))
    decreases u, 0
  {
    match u
    case Alternation(cs) => EstimateSumTracks(cs, |cs|, margin, m, limit);
    case Concat(cs) =>
      if SumOfMins(cs) != UINT32_MAX {
        EstimateProductTracks(cs, |cs|, margin + SumOfMins(cs), m, limit);
      }
    case _ =>
  }

  lemma {:induction false} EstimateSumTracks(cs: seq<Unit>, n: nat, margin: nat, m: uint64, limit: uint32)
    requires m > 0 && n <= |cs| && WeightMax(cs) < UINT32_MAX
    ensures Tracks(EstimateSum(cs, n, margin, m, limit), IdealSum(cs, n, margin, m, limit))
    decreases cs, n
  {
    if n > 0 {
      WeightOfChild(cs, n - 1);
      EstimateSumTracks(cs, n - 1, margin, m, limit);
      EstimateTracks(cs[n - 1], margin, m, limit);
      PlusTracks(EstimateSum(cs, n - 1, margin, m, limit), Estimate(cs[n - 1], margin, m, limit),
                 IdealSum(cs, n - 1, margin, m, limit), Ideal(cs[n - 1], margin, m, limit));
    }
  }

  lemma {:induction false} EstimateProductTracks(cs: seq<Unit>, n: nat, whole: nat, m: uint64, limit: uint32)
    requires m > 0 && n <= |cs| && SumOfMins(cs) != UINT32_MAX && WeightSum(cs) < UINT32_MAX
    ensures Tracks(EstimateProduct(cs, n, whole, m, limit), IdealProduct(cs, n, whole, m, limit))
    decreases cs, n
  {
    if n > 0 {
      var margin := Max(whole - MinLen(cs[n - 1]), 0);
      EveryChildReachable(cs, n - 1);
      EstimateProductTracks(cs, n - 1, whole, m, limit);
      EstimateTracks(cs[n - 1], margin, m, limit);
      IdealProductPositive(cs, n - 1, whole, m, limit);
      IdealPositive(cs[n - 1], margin, m, limit);
      TimesTracks(EstimateProduct(cs, n - 1, whole, m, limit), Estimate(cs[n - 1], margin, m, limit),
                  IdealProduct(cs, n - 1, whole, m, limit), Ideal(cs[n - 1], margin, m, limit));
    }
  }

  /** The parts of a reachable concatenation and their partial products have positive estimates. */
  lemma FactorsPositive(cs: seq<Unit>, n: nat, whole: nat, m: uint64, limit: uint32)
    requires m > 0 && 0 < n <= |cs| && SumOfMins(cs) != UINT32_MAX && WeightSum(cs) < UINT32_MAX
    ensures EstimateProduct(cs, n - 1, whole, m, limit) > 0
    ensures Estimate(cs[n - 1], Max(whole - MinLen(cs[n - 1]), 0), m, limit) > 0
  {
    var margin := Max(whole - MinLen(cs[n - 1]), 0);
    EveryChildReachable(cs, n - 1);
    IdealProductPositive(cs, n - 1, whole, m, limit);
    IdealPositive(cs[n - 1], margin, m, limit);
    EstimateProductTracks(cs, n - 1, whole, m, limit);
    EstimateTracks(cs[n - 1], margin, m, limit);
  }

  /** A saturated factor saturates every product from there on. */
  lemma {:induction false} StaysSaturated(cs: seq<Unit>, i: nat, n: nat, whole: nat, m: uint64, limit: uint32)
    requires m > 0 && i < n <= |cs| && SumOfMins(cs) != UINT32_MAX && WeightSum(cs) < UINT32_MAX
    requires Estimate(cs[i], Max(whole - MinLen(cs[i]), 0), m, limit) == UINT64_MAX
    ensures EstimateProduct(cs, n, whole, m, limit) == UINT64_MAX
    decreases n
  {
    FactorsPositive(cs, n, whole, m, limit);
    if n == i + 1 {
      SafeMultSymmetric(EstimateProduct(cs, n - 1, whole, m, limit), UINT64_MAX);
      SafeMultSaturated(EstimateProduct(cs, n - 1, whole, m, limit));
    } else {
      StaysSaturated(cs, i, n - 1, whole, m, limit);
      SafeMultSaturated(Estimate(cs[n - 1], Max(whole - MinLen(cs[n - 1]), 0), m, limit));
    }
  }

  /** The result has the estimate of the unit for every positive number of words. */
  ghost predicate Computes(r: UnitResult, u: Unit, margin: nat, limit: uint32)
  {
    forall m: uint64 :: m > 0 ==> r.At(m) == Estimate(u, margin, m, limit)
  }

  ghost predicate ComputesSum(r: UnitResult, cs: seq<Unit>, n: nat, margin: nat, limit: uint32)
    requires n <= |cs|
  {
    forall m: uint64 :: m > 0 ==> r.At(m) == EstimateSum(cs, n, margin, m, limit)
  }

  ghost predicate ComputesProduct(r: UnitResult, cs: seq<Unit>, n: nat, whole: nat, limit: uint32)
    requires n <= |cs|
  {
    forall m: uint64 :: m > 0 ==> r.At(m) == EstimateProduct(cs, n, whole, m, limit)
  }

  lemma SumComputed(sum: UnitResult, child: UnitResult, cs: seq<Unit>, n: nat, margin: nat, limit: uint32)
    requires 0 < n <= |cs|
    requires ComputesSum(sum, cs, n - 1, margin, limit) && Computes(child, cs[n - 1], margin, limit)
    ensures ComputesSum(sum.Plus(child), cs, n, margin, limit)
  {
    forall m: uint64 | m > 0
      ensures sum.Plus(child).At(m) == EstimateSum(cs, n, margin, m, limit)
    {
      PlusAt(sum, child, m);
    }
  }

  /** One more factor; a saturated factor already saturates the product, and no factor is zero. */
  lemma ProductComputed(total: UnitResult, child: UnitResult, cs: seq<Unit>, n: nat, whole: nat, limit: uint32)
    requires 0 < n <= |cs| && SumOfMins(cs) != UINT32_MAX && WeightSum(cs) < UINT32_MAX
    requires ComputesProduct(total, cs, n - 1, whole, limit)
    requires Computes(child, cs[n - 1], Max(whole - MinLen(cs[n - 1]), 0), limit)
    ensures ComputesProduct(total.Times(child), cs, n, whole, limit)
    ensures child == Constant(UINT64_MAX) ==> ComputesProduct(child, cs, |cs|, whole, limit)
    ensures child != Constant(0)
  {
    var margin := Max(whole - MinLen(cs[n - 1]), 0);
    forall m: uint64 | m > 0
      ensures total.Times(child).At(m) == EstimateProduct(cs, n, whole, m, limit)
    {
      FactorsPositive(cs, n, whole, m, limit);
      TimesAt(total, child, m);
    }
    if child == Constant(UINT64_MAX) {
      forall m: uint64 | m > 0
        ensures child.At(m) == EstimateProduct(cs, |cs|, whole, m, limit)
      {
        assert child.At(m) == Estimate(cs[n - 1], margin, m, limit);
        StaysSaturated(cs, n - 1, |cs|, whole, m, limit);
      }
    }
    FactorsPositive(cs, n, whole, 1, limit);
    assert child.At(1) == Estimate(cs[n - 1], margin, 1, limit);
  }

  /** `estimate_impl`. */
  method EstimateImpl(unit: Unit, margin: MinLengthMargin, limit: uint32) returns (r: UnitResult)
    requires margin.Total() + Weight(unit) < UINT32_MAX
    ensures Computes(r, unit, margin.Total(), limit)
    decreases unit, 1
  {
    match unit
    case Word(_) => r := Constant(1);
    case QMark => r := Constant(1);
    case Star => r := Constant(1 + Room(margin.Total(), limit));
    case Regex(_) => r := Function(input => input);
    case Alternation(cs) => r := EstimateAlternation(cs, margin, limit);
    case Concat(cs) => r := EstimateConcat(cs, margin, limit);
  }

  method EstimateAlternation(cs: seq<Unit>, margin: MinLengthMargin, limit: uint32) returns (sum: UnitResult)
    requires margin.Total() + WeightMax(cs) < UINT32_MAX
    ensures ComputesSum(sum, cs, |cs|, margin.Total(), limit)
    decreases cs, 0
  {
    sum := Constant(0);
    for i := 0 to |cs|
      invariant ComputesSum(sum, cs, i, margin.Total(), limit)
    {
      WeightOfChild(cs, i);
      var child := EstimateImpl(cs[i], margin, limit);
      SumComputed(sum, child, cs, i + 1, margin.Total(), limit);
      sum := sum.Plus(child);
    }
  }

  method MinLengths(cs: seq<Unit>) returns (reachable: bool, unitMinLength: uint32, minLengths: seq<uint32>)
    requires WeightSum(cs) < UINT32_MAX
    ensures reachable <==> SumOfMins(cs) != UINT32_MAX
    ensures reachable ==> unitMinLength == SumOfMins(cs)
    ensures reachable ==> |minLengths| == |cs| && forall i :: 0 <= i < |cs| ==> minLengths[i] == MinLen(cs[i])
  {
    unitMinLength := 0;
    minLengths := [];
    assert cs[0..] == cs;
    for i := 0 to |cs|
      invariant SumSoFar(cs, i, unitMinLength)
      invariant |minLengths| == i && forall j :: 0 <= j < i ==> minLengths[j] == MinLen(cs[j])
    {
      SumStep(cs, i, unitMinLength);
      var minLen := MinLength(cs[i]);
      if minLen == UINT32_MAX {
        return false, unitMinLength, minLengths;
      }
      unitMinLength := unitMinLength + minLen;
      minLengths := minLengths + [minLen];
    }
    RangeOfAllWithin(cs);
    return true, unitMinLength, minLengths;
  }

  method EstimateConcat(cs: seq<Unit>, margin: MinLengthMargin, limit: uint32) returns (total: UnitResult)
    requires margin.Total() + WeightSum(cs) < UINT32_MAX
    ensures Computes(total, Concat(cs), margin.Total(), limit)
    decreases cs, 0
  {
    var reachable, unitMinLength, minLengths := MinLengths(cs);
    if !reachable {
      return Constant(0);
    }
    ghost var whole := margin.Total() + unitMinLength;
    total := Constant(1);
    var minBefore: uint32 := 0;
    for i := 0 to |cs|
      invariant SumSoFar(cs, i, minBefore)
      invariant ComputesProduct(total, cs, i, whole, limit)
    {
      EveryChildReachable(cs, i);
      SumStep(cs, i, minBefore);
      var childMin := minLengths[i];
      var minAfter: uint32 := unitMinLength - minBefore - childMin;
      var childMargin := margin.Plus(MinLengthMargin(minBefore, minAfter));
      var child := EstimateImpl(cs[i], childMargin, limit);
      minBefore := minBefore + childMin;
      ProductComputed(total, child, cs, i + 1, whole, limit);
      if child.Constant? && child.constant == UINT64_MAX {
        return child;
      }
      if child.Constant? && child.constant == 0 {
        return child;
      }
      total := total.Times(child);
    }
  }
}
