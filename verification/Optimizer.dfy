/** SimpleQueryOptimizer (src/netspeak/QueryNormalizer.cpp): fewer units, same phrases. */
module QueryOptimizer {
  import opened MachineInts
  import opened Languages
  import opened Sequences
  import opened SimpleQueries

  // ---------------------------------------------------------------- the star pass, as functions

  predicate Zero(u: Unit)
  {
    MinLen(u) == 0
  }

  /** A unit that stops the search for something to absorb. */
  predicate Blocks(u: Unit)
  {
    !u.QMark? && !Zero(u)
  }

  /** A star stands before the end of cs with nothing that blocks in between. */
  predicate StarBehind(cs: seq<Unit>)
  {
    if cs == [] then false
    else
      var last := cs[|cs| - 1];
      last.Star? || (!Blocks(last) && StarBehind(cs[..|cs| - 1]))
  }

  predicate StarAhead(cs: seq<Unit>)
  {
    cs != [] && (cs[0].Star? || (!Blocks(cs[0]) && StarAhead(cs[1..])))
  }

  /** First pass: drop what a star before it absorbs. */
  function Forward(cs: seq<Unit>): seq<Unit>
  {
    if cs == [] then []
    else
      var front, last := cs[..|cs| - 1], cs[|cs| - 1];
      if Zero(last) && StarBehind(front) then Forward(front) else Forward(front) + [last]
  }

  /** Second pass: drop what a star after it absorbs. */
  function Backward(cs: seq<Unit>): seq<Unit>
  {
    if cs == [] then []
    else if Zero(cs[0]) && StarAhead(cs[1..]) then Backward(cs[1..])
    else [cs[0]] + Backward(cs[1..])
  }

  // ---------------------------------------------------------------- the star pass keeps the language

  lemma {:induction false} ZeroHasEmpty(u: Unit, R: RegexMeaning)
    requires Weight(u) < UINT32_MAX && Zero(u)
    ensures Has(Lang(u, R), [])
    decreases u, 1
  {
    match u
    case Concat(cs) => ZeroAllHasEmpty(cs, R);
    case Alternation(cs) => ZeroAnyHasEmpty(cs, R);
    case _ =>
  }

  lemma {:induction false} ZeroAllHasEmpty(cs: seq<Unit>, R: RegexMeaning)
    requires WeightSum(cs) < UINT32_MAX && SumOfMins(cs) == 0
    ensures Has(LangAll(cs, R), [])
    decreases cs, 0
  {
    if cs != [] {
      ZeroHasEmpty(cs[0], R);
      ZeroAllHasEmpty(cs[1..], R);
      CatIntro([], [], Lang(cs[0], R), LangAll(cs[1..], R));
      var e: Phrase := [];
      assert e + e == e;
    }
  }

  lemma {:induction false} ZeroAnyHasEmpty(cs: seq<Unit>, R: RegexMeaning)
    requires WeightMax(cs) < UINT32_MAX && LeastOfMins(cs) == 0
    ensures Has(LangAny(cs, R), [])
    decreases cs, 0
  {
    if cs != [] {
      UnionHas(Lang(cs[0], R), LangAny(cs[1..], R));
      if Zero(cs[0]) {
        ZeroHasEmpty(cs[0], R);
      } else {
        ZeroAnyHasEmpty(cs[1..], R);
      }
    }
  }

  lemma LangAllSnoc(cs: seq<Unit>, R: RegexMeaning)
    requires cs != []
    ensures LangAll(cs, R) == Cat(LangAll(cs[..|cs| - 1], R), Lang(cs[|cs| - 1], R))
    ensures WeightSum(cs) == WeightSum(cs[..|cs| - 1]) + Weight(cs[|cs| - 1])
  {
    var front, last := cs[..|cs| - 1], cs[|cs| - 1];
    assert cs == front + [last];
    WeightSumAppend(front, [last]);
    LangAllAppend(front, [last], R);
    LangAllOne(last, R);
  }

  /** What ends in the reach of a star may grow at its end by anything. */
  lemma {:induction false} StarBehindAbsorbs(cs: seq<Unit>, R: RegexMeaning)
    requires WeightSum(cs) < UINT32_MAX && StarBehind(cs)
    ensures Cat(LangAll(cs, R), All()) == LangAll(cs, R)
  {
    var front, last := cs[..|cs| - 1], cs[|cs| - 1];
    var F, L := LangAll(front, R), Lang(last, R);
    LangAllSnoc(cs, R);
    CatAssoc(F, L, All());
    if last.Star? {
      AllAbsorbs(All<Word>());
    } else {
      StarBehindAbsorbs(front, R);
      CatAssoc(F, All(), L);
      if last.QMark? {
        AllCommutesWithSingles<Word>();
      } else {
        ZeroHasEmpty(last, R);
        AllAbsorbs(L);
      }
    }
  }

  lemma {:induction false} StarAheadAbsorbs(cs: seq<Unit>, R: RegexMeaning)
    requires WeightSum(cs) < UINT32_MAX && StarAhead(cs)
    ensures Cat(All(), LangAll(cs, R)) == LangAll(cs, R)
  {
    var L, T := Lang(cs[0], R), LangAll(cs[1..], R);
    CatAssoc(All(), L, T);
    if cs[0].Star? {
      AllAbsorbs(All<Word>());
    } else {
      StarAheadAbsorbs(cs[1..], R);
      CatAssoc(L, All(), T);
      if cs[0].QMark? {
        AllCommutesWithSingles<Word>();
      } else {
        ZeroHasEmpty(cs[0], R);
        AllAbsorbs(L);
      }
    }
  }

  lemma {:induction false} ForwardKeepsLang(cs: seq<Unit>, R: RegexMeaning)
    requires WeightSum(cs) < UINT32_MAX
    ensures LangAll(Forward(cs), R) == LangAll(cs, R)
    ensures WeightSum(Forward(cs)) <= WeightSum(cs)
  {
    if cs != [] {
      var front, last := cs[..|cs| - 1], cs[|cs| - 1];
      LangAllSnoc(cs, R);
      ForwardKeepsLang(front, R);
      if Zero(last) && StarBehind(front) {
        StarBehindAbsorbs(front, R);
        ZeroHasEmpty(last, R);
        AllAbsorbs(Lang(last, R));
        CatAssoc(LangAll(front, R), All(), Lang(last, R));
      } else {
        var r := Forward(front) + [last];
        LangAllSnoc(r, R);
        assert r[..|r| - 1] == Forward(front);
      }
    }
  }

  lemma {:induction false} BackwardKeepsLang(cs: seq<Unit>, R: RegexMeaning)
    requires WeightSum(cs) < UINT32_MAX
    ensures LangAll(Backward(cs), R) == LangAll(cs, R)
    ensures WeightSum(Backward(cs)) <= WeightSum(cs)
  {
    if cs != [] {
      BackwardKeepsLang(cs[1..], R);
      if Zero(cs[0]) && StarAhead(cs[1..]) {
        StarAheadAbsorbs(cs[1..], R);
        ZeroHasEmpty(cs[0], R);
        AllAbsorbs(Lang(cs[0], R));
        CatAssoc(Lang(cs[0], R), All(), LangAll(cs[1..], R));
      } else {
        assert ([cs[0]] + Backward(cs[1..]))[1..] == Backward(cs[1..]);
      }
    }
  }

  // ---------------------------------------------------------------- what the star pass achieves

  ghost predicate Blocked(cs: seq<Unit>, i: int, j: int)
  {
    exists k :: i < k < j && 0 <= k < |cs| && Blocks(cs[k])
  }

  ghost predicate NoZeroAfterStar(cs: seq<Unit>)
  {
    forall i, j :: 0 <= i < j < |cs| && cs[i].Star? && Zero(cs[j]) ==> Blocked(cs, i, j)
  }

  ghost predicate NoZeroBeforeStar(cs: seq<Unit>)
  {
    forall i, j :: 0 <= i < j < |cs| && Zero(cs[i]) && cs[j].Star? ==> Blocked(cs, i, j)
  }

  lemma FrontBlocked(cs: seq<Unit>, i: int, j: int)
    requires cs != []
    ensures Blocked(cs[..|cs| - 1], i, j) ==> Blocked(cs, i, j)
  {
    var front := cs[..|cs| - 1];
    if Blocked(front, i, j) {
      var k :| i < k < j && 0 <= k < |front| && Blocks(front[k]);
      assert Blocks(cs[k]);
    }
  }

  lemma TailBlocked(cs: seq<Unit>, i: int, j: int)
    requires cs != [] && -1 <= i
    ensures Blocked(cs[1..], i, j) <==> Blocked(cs, i + 1, j + 1)
  {
    if Blocked(cs[1..], i, j) {
      var k :| i < k < j && 0 <= k < |cs[1..]| && Blocks(cs[1..][k]);
      assert Blocks(cs[k + 1]);
    }
    if Blocked(cs, i + 1, j + 1) {
      var k :| i + 1 < k < j + 1 && 0 <= k < |cs| && Blocks(cs[k]);
      assert Blocks(cs[1..][k - 1]);
    }
  }

  /** Around a star, up to the next unit that must hold a word, there is nothing but question marks. */
  ghost predicate StarNormal(cs: seq<Unit>)
  {
    NoZeroAfterStar(cs) && NoZeroBeforeStar(cs)
  }

  lemma {:induction false} StarBehindMeans(cs: seq<Unit>, i: nat)
    requires i < |cs| && cs[i].Star? && !Blocked(cs, i, |cs|)
    ensures StarBehind(cs)
  {
    var front, last := cs[..|cs| - 1], cs[|cs| - 1];
    if i < |cs| - 1 {
      FrontBlocked(cs, i, |front|);
      StarBehindMeans(front, i);
    }
  }

  lemma {:induction false} StarAheadMeans(cs: seq<Unit>, j: nat)
    requires j < |cs| && cs[j].Star? && !Blocked(cs, -1, j)
    ensures StarAhead(cs)
  {
    if j > 0 {
      TailBlocked(cs, -1, j - 1);
      StarAheadMeans(cs[1..], j - 1);
    }
  }

  lemma {:induction false} ForwardStarBehind(cs: seq<Unit>)
    requires StarBehind(Forward(cs))
    ensures StarBehind(cs)
  {
    if cs != [] {
      var front, last := cs[..|cs| - 1], cs[|cs| - 1];
      if !(Zero(last) && StarBehind(front)) {
        var r := Forward(front) + [last];
        assert r[..|r| - 1] == Forward(front);
        if !last.Star? {
          ForwardStarBehind(front);
        }
      }
    }
  }

  lemma {:induction false} ForwardResult(cs: seq<Unit>)
    ensures NoZeroAfterStar(Forward(cs))
  {
    if cs != [] {
      var front, last := cs[..|cs| - 1], cs[|cs| - 1];
      ForwardResult(front);
      if !(Zero(last) && StarBehind(front)) {
        var f := Forward(front);
        var r := f + [last];
        forall i, j | 0 <= i < j < |r| && r[i].Star? && Zero(r[j])
          ensures Blocked(r, i, j)
        {
          if !Blocked(f, i, j) {
            StarBehindMeans(f, i);
            ForwardStarBehind(front);
          } else {
            var k :| i < k < j && 0 <= k < |f| && Blocks(f[k]);
            assert Blocks(r[k]);
          }
        }
      }
    }
  }

  lemma {:induction false} BackwardStarAhead(cs: seq<Unit>)
    requires StarAhead(Backward(cs))
    ensures StarAhead(cs)
  {
    if !(Zero(cs[0]) && StarAhead(cs[1..])) {
      assert ([cs[0]] + Backward(cs[1..]))[1..] == Backward(cs[1..]);
      if !cs[0].Star? {
        BackwardStarAhead(cs[1..]);
      }
    }
  }

  lemma {:induction false} BackwardResult(cs: seq<Unit>)
    ensures NoZeroBeforeStar(Backward(cs))
  {
    if cs != [] {
      BackwardResult(cs[1..]);
      if !(Zero(cs[0]) && StarAhead(cs[1..])) {
        var t := Backward(cs[1..]);
        var r := [cs[0]] + t;
        forall i, j | 0 <= i < j < |r| && Zero(r[i]) && r[j].Star?
          ensures Blocked(r, i, j)
        {
          assert r[1..] == t;
          if i > 0 {
            TailBlocked(r, i - 1, j - 1);
          }
          TailBlocked(r, -1, j - 1);
          if i == 0 && !Blocked(t, -1, j - 1) {
            StarAheadMeans(t, j - 1);
            BackwardStarAhead(cs[1..]);
          }
        }
      }
    }
  }

  /** A zero reachable from the front of Backward(cs) witnesses one reachable from the front of cs. */
  lemma {:induction false} BackwardZeroAhead(cs: seq<Unit>, j: nat) returns (i: nat)
    requires j < |Backward(cs)| && Zero(Backward(cs)[j]) && !Blocked(Backward(cs), -1, j)
    ensures i < |cs| && Zero(cs[i]) && !Blocked(cs, -1, i)
  {
    if Zero(cs[0]) {
      i := 0;
    } else {
      var t := Backward(cs[1..]);
      var r := [cs[0]] + t;
      assert r[1..] == t && !Blocks(r[0]) && j > 0;
      TailBlocked(r, -1, j - 1);
      i := BackwardZeroAhead(cs[1..], j - 1);
      TailBlocked(cs, -1, i);
      assert !Blocks(cs[0]);
      i := i + 1;
    }
  }

  lemma {:induction false} BackwardKeepsForwardResult(cs: seq<Unit>)
    requires NoZeroAfterStar(cs)
    ensures NoZeroAfterStar(Backward(cs))
  {
    if cs != [] {
      forall i, j | 0 <= i < j < |cs[1..]| && cs[1..][i].Star? && Zero(cs[1..][j])
        ensures Blocked(cs[1..], i, j)
      {
        TailBlocked(cs, i, j);
      }
      BackwardKeepsForwardResult(cs[1..]);
      if !(Zero(cs[0]) && StarAhead(cs[1..])) {
        var t := Backward(cs[1..]);
        var r := [cs[0]] + t;
        forall i, j | 0 <= i < j < |r| && r[i].Star? && Zero(r[j])
          ensures Blocked(r, i, j)
        {
          assert r[1..] == t;
          if i > 0 {
            TailBlocked(r, i - 1, j - 1);
          }
          TailBlocked(r, -1, j - 1);
          if i == 0 && !Blocked(t, -1, j - 1) {
            var m := BackwardZeroAhead(cs[1..], j - 1);
            TailBlocked(cs, -1, m);
          }
        }
      }
    }
  }

  /** The units that are not absorbable, in order. */
  function Fixed(cs: seq<Unit>): seq<Unit>
  {
    if cs == [] then []
    else (if Zero(cs[0]) then [] else [cs[0]]) + Fixed(cs[1..])
  }

  lemma {:induction false} FixedAppend(a: seq<Unit>, b: seq<Unit>)
    ensures Fixed(a + b) == Fixed(a) + Fixed(b)
  {
    if a == [] {
      EmptyLeft(b);
      EmptyLeft(Fixed(b));
    } else {
      var t := a[1..];
      FixedAppend(t, b);
      TailOfAppend(a, b);
      AppendAssoc(if Zero(a[0]) then [] else [a[0]], Fixed(t), Fixed(b));
    }
  }

  ghost predicate Subsequence<T>(a: seq<T>, b: seq<T>)
  {
    a == [] || (b != [] && ((a[0] == b[0] && Subsequence(a[1..], b[1..])) || Subsequence(a, b[1..])))
  }

  lemma {:induction false} SubsequenceSnoc<T>(a: seq<T>, b: seq<T>, x: T)
    requires Subsequence(a, b)
    ensures Subsequence(a, b + [x]) && Subsequence(a + [x], b + [x])
  {
    if b == [] {
      assert a + [x] == b + [x] == [x] && [x][1..] == [];
    } else {
      assert (b + [x])[1..] == b[1..] + [x];
      if a != [] && a[0] == b[0] && Subsequence(a[1..], b[1..]) {
        SubsequenceSnoc(a[1..], b[1..], x);
        assert (a + [x])[1..] == a[1..] + [x];
      } else {
        SubsequenceSnoc(a, b[1..], x);
      }
    }
  }

  lemma {:induction false} SubsequenceTransitive<T>(a: seq<T>, b: seq<T>, c: seq<T>)
    requires Subsequence(a, b) && Subsequence(b, c)
    ensures Subsequence(a, c)
    decreases |b| + |c|
  {
    if a != [] {
      if b[0] == c[0] && Subsequence(b[1..], c[1..]) {
        if a[0] == b[0] && Subsequence(a[1..], b[1..]) {
          SubsequenceTransitive(a[1..], b[1..], c[1..]);
        } else {
          SubsequenceTransitive(a, b[1..], c[1..]);
        }
      } else {
        SubsequenceTransitive(a, b, c[1..]);
      }
    }
  }

  lemma {:induction false} SubsequenceMembers<T>(a: seq<T>, b: seq<T>)
    requires Subsequence(a, b)
    ensures forall x :: x in a ==> x in b
  {
    if a != [] {
      if a[0] == b[0] && Subsequence(a[1..], b[1..]) {
        SubsequenceMembers(a[1..], b[1..]);
        assert forall x :: x in a ==> x == a[0] || x in a[1..];
      } else {
        SubsequenceMembers(a, b[1..]);
      }
    }
  }

  lemma {:induction false} ForwardKeepsFixed(cs: seq<Unit>)
    ensures Fixed(Forward(cs)) == Fixed(cs)
    ensures Subsequence(Forward(cs), cs)
  {
    if cs != [] {
      var front, last := cs[..|cs| - 1], cs[|cs| - 1];
      assert cs == front + [last];
      ForwardKeepsFixed(front);
      FixedAppend(front, [last]);
      FixedAppend(Forward(front), [last]);
      SubsequenceSnoc(Forward(front), front, last);
    }
  }

  lemma {:induction false} BackwardKeepsFixed(cs: seq<Unit>)
    ensures Fixed(Backward(cs)) == Fixed(cs)
    ensures Subsequence(Backward(cs), cs)
  {
    if cs != [] {
      BackwardKeepsFixed(cs[1..]);
      FixedAppend([cs[0]], Backward(cs[1..]));
    }
  }

  /** Both passes together. */
  function Absorb(cs: seq<Unit>): seq<Unit>
  {
    Backward(Forward(cs))
  }

  /** The star pass keeps the language and everything that is not absorbable, in order, and leaves around each star
      nothing but question marks. */
  lemma AbsorbCorrect(cs: seq<Unit>)
    requires WeightSum(cs) < UINT32_MAX
    ensures Equivalent(Concat(Absorb(cs)), Concat(cs))
    ensures WeightSum(Absorb(cs)) <= WeightSum(cs)
    ensures StarNormal(Absorb(cs))
    ensures Subsequence(Absorb(cs), cs) && Fixed(Absorb(cs)) == Fixed(cs)
  {
    var f := Forward(cs);
    forall R: RegexMeaning
      ensures Lang(Concat(Absorb(cs)), R) == Lang(Concat(cs), R)
    {
      ForwardKeepsLang(cs, R);
      BackwardKeepsLang(f, R);
    }
    var R0: RegexMeaning := t => iset{};
    ForwardKeepsLang(cs, R0);
    BackwardKeepsLang(f, R0);
    ForwardResult(cs);
    BackwardKeepsForwardResult(f);
    BackwardResult(f);
    ForwardKeepsFixed(cs);
    BackwardKeepsFixed(f);
    SubsequenceTransitive(Absorb(cs), f, cs);
  }

  // ---------------------------------------------------------------- the star pass, as the program runs it

  /** The first n elements of cs without those whose index is in S. */
  function Kept<T>(cs: seq<T>, S: seq<nat>, n: nat): seq<T>
    requires n <= |cs|
  {
    if n == 0 then [] else Kept(cs, S, n - 1) + (if n - 1 in S then [] else [cs[n - 1]])
  }

  /** The elements of cs from n on without those whose index is in S. */
  function KeptFrom<T>(cs: seq<T>, S: seq<nat>, n: nat): seq<T>
    requires n <= |cs|
    decreases |cs| - n
  {
    if n == |cs| then [] else (if n in S then [] else [cs[n]]) + KeptFrom(cs, S, n + 1)
  }

  lemma {:induction false} KeptJoin<T>(cs: seq<T>, S: seq<nat>, n: nat)
    requires n <= |cs|
    ensures Kept(cs, S, n) + KeptFrom(cs, S, n) == Kept(cs, S, |cs|)
    decreases |cs| - n
  {
    if n < |cs| {
      KeptJoin(cs, S, n + 1);
      var x := if n in S then [] else [cs[n]];
      assert Kept(cs, S, n) + (x + KeptFrom(cs, S, n + 1)) == (Kept(cs, S, n) + x) + KeptFrom(cs, S, n + 1);
    }
  }

  lemma {:induction false} KeptIgnores<T>(cs: seq<T>, S: seq<nat>, x: nat, n: nat)
    requires n <= |cs| && n <= x
    ensures Kept(cs, S + [x], n) == Kept(cs, S, n)
  {
    if n > 0 {
      KeptIgnores(cs, S, x, n - 1);
    }
  }

  lemma {:induction false} KeptFromIgnores<T>(cs: seq<T>, S: seq<nat>, x: nat, n: nat)
    requires n <= |cs| && x < n
    ensures KeptFrom(cs, S + [x], n) == KeptFrom(cs, S, n)
    decreases |cs| - n
  {
    if n < |cs| {
      KeptFromIgnores(cs, S, x, n + 1);
    }
  }

  lemma {:induction false} KeptSame<T>(cs: seq<T>, S: seq<nat>, S': seq<nat>, n: nat)
    requires n <= |cs| && forall x :: x in S <==> x in S'
    ensures Kept(cs, S, n) == Kept(cs, S', n)
  {
    if n > 0 {
      KeptSame(cs, S, S', n - 1);
    }
  }

  lemma {:induction false} KeptAll<T>(cs: seq<T>, S: seq<nat>, n: nat)
    requires n <= |cs| && forall x :: x in S ==> x >= n
    ensures Kept(cs, S, n) == cs[..n]
  {
    if n > 0 {
      KeptAll(cs, S, n - 1);
      assert cs[..n] == cs[..n - 1] + [cs[n - 1]];
    }
  }

  /** Erasing below everything erased so far still finds the original index. */
  lemma {:induction false} KeptErase<T>(cs: seq<T>, S: seq<nat>, x: nat, n: nat)
    requires x < n <= |cs| && forall y :: y in S ==> y > x
    ensures |Kept(cs, S, n)| > x
    ensures Kept(cs, S + [x], n) == Kept(cs, S, n)[..x] + Kept(cs, S, n)[x + 1..]
  {
    if n == x + 1 {
      KeptAll(cs, S, x);
      KeptIgnores(cs, S, x, x);
    } else {
      KeptErase(cs, S, x, n - 1);
    }
  }

  lemma {:induction false} KeptPointwise(cs: seq<Unit>, ms: seq<uint32>, S: seq<nat>, n: nat)
    requires |ms| == |cs| && forall i :: 0 <= i < |cs| ==> ms[i] == MinLen(cs[i])
    requires n <= |cs|
    ensures |Kept(ms, S, n)| == |Kept(cs, S, n)|
    ensures forall i :: 0 <= i < |Kept(cs, S, n)| ==> Kept(ms, S, n)[i] == MinLen(Kept(cs, S, n)[i])
  {
    if n > 0 {
      KeptPointwise(cs, ms, S, n - 1);
    }
  }

  method EraseMarked(children: seq<Unit>, minLengths: seq<uint32>, toRemove: seq<nat>)
    returns (cs: seq<Unit>, ms: seq<uint32>)
    requires |minLengths| == |children|
    requires Distinct(toRemove) && forall x :: x in toRemove ==> x < |children|
    ensures cs == Kept(children, toRemove, |children|) && ms == Kept(minLengths, toRemove, |children|)
  {
    var order := Sort(toRemove, (a: nat, b: nat) => a >= b);
    DistinctByMultiset(toRemove, order);
    SameMembers(toRemove, order);
    cs, ms := children, minLengths;
    KeptAll(children, [], |children|);
    KeptAll(minLengths, [], |children|);
    for i := 0 to |order|
      invariant cs == Kept(children, order[..i], |children|)
      invariant ms == Kept(minLengths, order[..i], |children|)
    {
      var index := order[i];
      forall y | y in order[..i]
        ensures y > index
      {
        var j :| 0 <= j < i && order[j] == y;
        assert order[j] >= order[i];
      }
      assert index in order;
      KeptErase(children, order[..i], index, |children|);
      KeptErase(minLengths, order[..i], index, |children|);
      assert order[..i + 1] == order[..i] + [index];
      ms := ms[..index] + ms[index + 1..];
      cs := cs[..index] + cs[index + 1..];
    }
    assert order[..|order|] == order;
    KeptSame(children, order, toRemove, |children|);
    KeptSame(minLengths, order, toRemove, |children|);
  }

  /** The marks made so far turn the first n units into the result of the first pass on them. */
  ghost predicate ForwardMarked(cs: seq<Unit>, S: seq<nat>, n: nat)
  {
    && n <= |cs|
    && Distinct(S)
    && (forall x :: x in S ==> x < n)
    && Kept(cs, S, n) == Forward(cs[..n])
  }

  ghost predicate BackwardMarked(cs: seq<Unit>, S: seq<nat>, n: nat)
  {
    && n <= |cs|
    && Distinct(S)
    && (forall x :: x in S ==> n <= x < |cs|)
    && KeptFrom(cs, S, n) == Backward(cs[n..])
  }

  /** The first pass on one more unit. */
  lemma ForwardSnoc(front: seq<Unit>, u: Unit, cs: seq<Unit>)
    requires cs == front + [u]
    ensures Forward(cs) == if Zero(u) && StarBehind(front) then Forward(front) else Forward(front) + [u]
    ensures StarBehind(cs) <==> u.Star? || (!Blocks(u) && StarBehind(front))
  {
    InitOfSnoc(front, u);
  }

  lemma BackwardCons(u: Unit, back: seq<Unit>, cs: seq<Unit>)
    requires cs == [u] + back
    ensures Backward(cs) == if Zero(u) && StarAhead(back) then Backward(back) else [u] + Backward(back)
    ensures StarAhead(cs) <==> u.Star? || (!Blocks(u) && StarAhead(back))
  {
    assert cs[1..] == back;
  }

  lemma KeptOneMore<T>(cs: seq<T>, S: seq<nat>, n: nat)
    requires n < |cs| && n !in S
    ensures Kept(cs, S, n + 1) == Kept(cs, S, n) + [cs[n]]
    ensures Kept(cs, S + [n], n + 1) == Kept(cs, S, n)
  {
    KeptIgnores(cs, S, n, n);
    EmptyRight(Kept(cs, S, n));
  }

  lemma KeptFromOneMore<T>(cs: seq<T>, S: seq<nat>, n: nat)
    requires n < |cs| && n !in S
    ensures KeptFrom(cs, S, n) == [cs[n]] + KeptFrom(cs, S, n + 1)
    ensures KeptFrom(cs, S + [n], n) == KeptFrom(cs, S, n + 1)
  {
    KeptFromIgnores(cs, S, n, n + 1);
    EmptyLeft(KeptFrom(cs, S, n + 1));
  }

  lemma ForwardMark(cs: seq<Unit>, S: seq<nat>, n: nat)
    requires n < |cs| && ForwardMarked(cs, S, n)
    ensures if Zero(cs[n]) && StarBehind(cs[..n]) then ForwardMarked(cs, S + [n], n + 1) else ForwardMarked(cs, S, n + 1)
    ensures StarBehind(cs[..n + 1]) <==> cs[n].Star? || (!Blocks(cs[n]) && StarBehind(cs[..n]))
  {
    TakeNext(cs, n);
    ForwardSnoc(cs[..n], cs[n], cs[..n + 1]);
    KeptOneMore(cs, S, n);
    DistinctSnoc(S, n);
  }

  lemma BackwardMark(cs: seq<Unit>, S: seq<nat>, n: nat)
    requires 0 < n && BackwardMarked(cs, S, n)
    ensures if Zero(cs[n - 1]) && StarAhead(cs[n..]) then BackwardMarked(cs, S + [n - 1], n - 1) else BackwardMarked(cs, S, n - 1)
    ensures StarAhead(cs[n - 1..]) <==> cs[n - 1].Star? || (!Blocks(cs[n - 1]) && StarAhead(cs[n..]))
  {
    DropNext(cs, n - 1);
    BackwardCons(cs[n - 1], cs[n..], cs[n - 1..]);
    KeptFromOneMore(cs, S, n - 1);
    DistinctSnoc(S, n - 1);
  }

  /** Marked up to n with a star in reach, or with none. */
  ghost predicate Marking(cs: seq<Unit>, S: seq<nat>, n: nat, forward: bool, reached: bool)
  {
    && n <= |cs|
    && if forward then ForwardMarked(cs, S, n) && StarBehind(cs[..n]) == reached
       else BackwardMarked(cs, S, n) && StarAhead(cs[n..]) == reached
  }

  lemma MarkForward(cs: seq<Unit>, S: seq<nat>, n: nat)
    requires n < |cs| && Marking(cs, S, n, true, true)
    ensures if Zero(cs[n]) then Marking(cs, S + [n], n + 1, true, true) else Marking(cs, S, n + 1, true, cs[n].QMark?)
  {
    ForwardMark(cs, S, n);
  }

  lemma MarkBackward(cs: seq<Unit>, S: seq<nat>, n: nat)
    requires 0 < n && Marking(cs, S, n, false, true)
    ensures if Zero(cs[n - 1]) then Marking(cs, S + [n - 1], n - 1, false, true)
            else Marking(cs, S, n - 1, false, cs[n - 1].QMark?)
  {
    BackwardMark(cs, S, n);
  }

  /** From the star at starIndex, mark in one direction what it absorbs, up to the first unit that blocks. */
  method MarkForRemoval(children: seq<Unit>, minLengths: seq<uint32>, toRemove: seq<nat>, starIndex: nat, forward: bool)
    returns (processed: nat, marked: seq<nat>)
    requires |minLengths| == |children| && forall i :: 0 <= i < |children| ==> minLengths[i] == MinLen(children[i])
    requires starIndex < |children|
    requires Marking(children, toRemove, if forward then starIndex + 1 else starIndex, forward, true)
    ensures starIndex + 1 + processed <= |children| || !forward
    ensures starIndex - processed >= 0 || forward
    ensures var n := if forward then starIndex + 1 + processed else starIndex - processed;
            || Marking(children, marked, n, forward, false)
            || (Marking(children, marked, n, forward, true) && n == if forward then |children| else 0)
  {
    processed, marked := 0, toRemove;
    var index: nat := starIndex;
    while true
      invariant index < |children|
      invariant index == if forward then starIndex + processed else starIndex - processed
      invariant Marking(children, marked, if forward then index + 1 else index, forward, true)
      decreases if forward then |children| - index else index
    {
      if forward {
        index := index + 1;
        if index == |children| {
          break;
        }
        MarkForward(children, marked, index);
      } else {
        if index == 0 {
          break;
        }
        MarkBackward(children, marked, index);
        index := index - 1;
      }
      processed := processed + 1;
      if children[index].QMark? {
        // question marks are skipped
      } else if minLengths[index] == 0 {
        marked := marked + [index];
      } else {
        break;
      }
    }
  }

  /** The two passes of the star optimisation. */
  method ConcatStarOptimization(concat: seq<Unit>) returns (children: seq<Unit>)
    requires WeightSum(concat) < UINT32_MAX
    ensures children == Absorb(concat)
  {
    children := concat;
    var minLengths: seq<uint32> := [];
    for i := 0 to |children|
      invariant |minLengths| == i && forall j :: 0 <= j < i ==> minLengths[j] == MinLen(children[j])
    {
      WeightOfChild(children, i);
      var m := MinLength(children[i]);
      minLengths := minLengths + [m];
    }

    var toRemove: seq<nat> := [];
    var i := 0;
    while i < |children|
      invariant 0 <= i && ForwardMarked(children, toRemove, i)
      invariant i < |children| ==> !StarBehind(children[..i])
    {
      ForwardMark(children, toRemove, i);
      if children[i].Star? {
        var processed;
        processed, toRemove := MarkForRemoval(children, minLengths, toRemove, i, true);
        i := i + processed;
      }
      i := i + 1;
    }
    assert children[..i] == children;
    KeptPointwise(children, minLengths, toRemove, |children|);
    children, minLengths := EraseMarked(children, minLengths, toRemove);

    toRemove := [];
    i := |children|;
    assert children[i..] == [];
    while i > 0
      invariant 0 <= i && BackwardMarked(children, toRemove, i)
      invariant i > 0 ==> !StarAhead(children[i..])
    {
      BackwardMark(children, toRemove, i);
      if children[i - 1].Star? {
        var processed;
        processed, toRemove := MarkForRemoval(children, minLengths, toRemove, i - 1, false);
        i := i - processed;
      }
      i := i - 1;
    }
    assert children[0..] == children;
    KeptJoin(children, toRemove, 0);
    children, minLengths := EraseMarked(children, minLengths, toRemove);
  }

  // ---------------------------------------------------------------- inlining

  /** The units with those of the given tag replaced by their children. */
  function Inlined(cs: seq<Unit>, tag: Tag): seq<Unit>
    requires tag == CONCAT || tag == ALTERNATION
  {
    if cs == [] then []
    else (if cs[0].Tag() == tag then cs[0].children else [cs[0]]) + Inlined(cs[1..], tag)
  }

  predicate ContainsChild(cs: seq<Unit>, tag: Tag)
  {
    exists i :: 0 <= i < |cs| && cs[i].Tag() == tag
  }

  lemma InlinedUnit(u: Unit, us: seq<Unit>, R: RegexMeaning)
    requires us == if u.Concat? then u.children else [u]
    ensures LangAll(us, R) == Lang(u, R)
  {
    LangAllOne(u, R);
  }

  lemma InlinedUnitWeight(u: Unit, us: seq<Unit>)
    requires us == if u.Concat? then u.children else [u]
    ensures WeightSum(us) == Weight(u)
  {
    if !u.Concat? {
      assert us[1..] == [];
    }
  }

  lemma {:induction false} InlinedConcat(cs: seq<Unit>, R: RegexMeaning)
    ensures LangAll(Inlined(cs, CONCAT), R) == LangAll(cs, R)
  {
    if cs != [] {
      var head, tail := if cs[0].Concat? then cs[0].children else [cs[0]], Inlined(cs[1..], CONCAT);
      InlinedConcat(cs[1..], R);
      InlinedUnit(cs[0], head, R);
      LangAllAppend(head, tail, R);
    }
  }

  lemma {:induction false} InlinedConcatWeight(cs: seq<Unit>)
    ensures WeightSum(Inlined(cs, CONCAT)) == WeightSum(cs)
  {
    if cs != [] {
      var head, tail := if cs[0].Concat? then cs[0].children else [cs[0]], Inlined(cs[1..], CONCAT);
      InlinedConcatWeight(cs[1..]);
      InlinedUnitWeight(cs[0], head);
      WeightSumAppend(head, tail);
    }
  }

  lemma LangAnyOne(u: Unit, R: RegexMeaning)
    ensures LangAny([u], R) == Lang(u, R)
  {
    assert [u][1..] == [];
    UnionNothing(Lang(u, R));
  }

  lemma {:induction false} InlinedAlternation(cs: seq<Unit>, R: RegexMeaning)
    ensures LangAny(Inlined(cs, ALTERNATION), R) == LangAny(cs, R)
    ensures WeightMax(Inlined(cs, ALTERNATION)) == WeightMax(cs)
  {
    if cs != [] {
      var head := if cs[0].Alternation? then cs[0].children else [cs[0]];
      InlinedAlternation(cs[1..], R);
      LangAnyAppend(head, Inlined(cs[1..], ALTERNATION), R);
      WeightMaxAppend(head, Inlined(cs[1..], ALTERNATION));
      LangAnyOne(cs[0], R);
    }
  }

  lemma {:induction false} InlinedMembers(cs: seq<Unit>, tag: Tag, c: Unit)
    requires tag == CONCAT || tag == ALTERNATION
    requires c in Inlined(cs, tag)
    ensures (c in cs && c.Tag() != tag) || exists d :: d in cs && d.Tag() == tag && c in d.children
  {
    if c !in (if cs[0].Tag() == tag then cs[0].children else [cs[0]]) {
      InlinedMembers(cs[1..], tag, c);
    }
  }

  lemma InlinedRegexFree(us: seq<Unit>, tag: Tag)
    requires tag == CONCAT || tag == ALTERNATION
    requires AllRegexFree(us)
    ensures AllRegexFree(Inlined(us, tag))
  {
    forall c | c in Inlined(us, tag)
      ensures RegexFree(c)
    {
      InlinedMembers(us, tag, c);
    }
  }

  lemma {:induction false} NothingToInline(cs: seq<Unit>, tag: Tag)
    requires tag == CONCAT || tag == ALTERNATION
    requires !ContainsChild(cs, tag)
    ensures Inlined(cs, tag) == cs
  {
    if cs != [] {
      assert cs[0].Tag() != tag;
      assert forall i :: 0 <= i < |cs[1..]| ==> cs[1..][i] == cs[i + 1];
      NothingToInline(cs[1..], tag);
    }
  }

  lemma InlinedNext(cs: seq<Unit>, tag: Tag, i: nat, before: seq<Unit>)
    requires (tag == CONCAT || tag == ALTERNATION) && i < |cs|
    ensures before + Inlined(cs[i..], tag)
         == before + (if cs[i].Tag() == tag then cs[i].children else [cs[i]]) + Inlined(cs[i + 1..], tag)
  {
    DropNext(cs, i);
    AppendAssoc(before, if cs[i].Tag() == tag then cs[i].children else [cs[i]], Inlined(cs[i + 1..], tag));
  }

  method AppendEach(front: seq<Unit>, cs: seq<Unit>) returns (children: seq<Unit>)
    ensures children == front + cs
  {
    children := front;
    for j := 0 to |cs|
      invariant children == front + cs[..j]
    {
      children := children + [cs[j]];
    }
    assert cs[..|cs|] == cs;
  }

  method InlineNested(unit: seq<Unit>, tag: Tag) returns (children: seq<Unit>)
    requires tag == CONCAT || tag == ALTERNATION
    ensures children == Inlined(unit, tag)
  {
    if !ContainsChild(unit, tag) {
      NothingToInline(unit, tag);
      return unit;
    }
    children := [];
    ghost var goal := Inlined(unit, tag);
    assert unit[0..] == unit && children + goal == goal;
    for i := 0 to |unit|
      invariant children + Inlined(unit[i..], tag) == goal
    {
      var child := unit[i];
      ghost var before := children;
      InlinedNext(unit, tag, i, before);
      if child.Tag() == tag {
        children := AppendEach(children, child.children);
      } else {
        children := children + [child];
      }
    }
    assert unit[|unit|..] == [];
    EmptyRight(children);
  }

  // ---------------------------------------------------------------- the optimiser

  /** The alternation of nothing, which accepts nothing. */
  predicate IsDead(u: Unit)
  {
    u.Alternation? && u.children == []
  }

  predicate ContainsDead(cs: seq<Unit>)
  {
    exists i :: 0 <= i < |cs| && IsDead(cs[i])
  }

  /** What the optimiser makes of a concatenation whose parts are optimised already. */
  function OptimizedConcat(children: seq<Unit>): Unit
  {
    if |children| == 0 then Concat([])
    else if |children| == 1 then children[0]
    else
      var inlined := Inlined(children, CONCAT);
      if ContainsDead(inlined) then Alternation([])
      else Concat(if ContainsChild(inlined, STAR) then Absorb(inlined) else inlined)
  }

  function OptimizedAlternation(children: seq<Unit>): Unit
  {
    if |children| == 0 then Alternation([])
    else if |children| == 1 then children[0]
    else Alternation(Inlined(children, ALTERNATION))
  }

  /** The unit as the optimiser leaves it. */
  function OptimizedUnit(u: Unit): Unit
    decreases u, 1
  {
    match u
    case Concat(cs) => OptimizedConcat(OptimizedUnits(cs))
    case Alternation(cs) => OptimizedAlternation(OptimizedUnits(cs))
    case _ => u
  }

  function OptimizedUnits(cs: seq<Unit>): (r: seq<Unit>)
    ensures |r| == |cs|
    decreases cs, 0
  {
    if cs == [] then [] else [OptimizedUnit(cs[0])] + OptimizedUnits(cs[1..])
  }

  /** At the root only the children are optimised. */
  function OptimizedTree(root: Unit): Unit
  {
    match root
    case Concat(cs) => Concat(OptimizedUnits(cs))
    case Alternation(cs) => Alternation(OptimizedUnits(cs))
    case _ => root
  }

  lemma {:induction false} OptimizedUnitsAt(cs: seq<Unit>, i: nat)
    requires i < |cs|
    ensures OptimizedUnits(cs)[i] == OptimizedUnit(cs[i])
  {
    if i > 0 {
      OptimizedUnitsAt(cs[1..], i - 1);
    }
  }

  /** No directly nested concatenation or alternation, no dead part in a concatenation, stars normalised. */
  ghost predicate Optimized(u: Unit)
  {
    match u
    case Concat(cs) => StarNormal(cs) && forall c | c in cs :: !c.Concat? && !IsDead(c) && Optimized(c)
    case Alternation(cs) => forall c | c in cs :: !c.Alternation? && Optimized(c)
    case _ => true
  }

  /** after is an optimised equivalent of before, no heavier, and without regexes if before has none. */
  ghost predicate Improves(after: Unit, before: Unit)
  {
    Equivalent(after, before) && Weight(after) <= Weight(before) && Optimized(after) && (RegexFree(before) ==> RegexFree(after))
  }

  lemma {:induction false} ReplaceChildren(after: seq<Unit>, before: seq<Unit>, R: RegexMeaning)
    requires |after| == |before| && forall i :: 0 <= i < |before| ==> Improves(after[i], before[i])
    ensures LangAll(after, R) == LangAll(before, R) && LangAny(after, R) == LangAny(before, R)
    ensures WeightSum(after) <= WeightSum(before) && WeightMax(after) <= WeightMax(before)
    ensures AllRegexFree(before) ==> AllRegexFree(after)
  {
    if before != [] {
      ReplaceChildren(after[1..], before[1..], R);
      assert Improves(after[0], before[0]);
      assert after == [after[0]] + after[1..];
    }
  }

  method OptimizeSimpleUnit(unit: Unit) returns (r: Unit)
    requires Weight(unit) < UINT32_MAX
    ensures Improves(r, unit) && r == OptimizedUnit(unit)
    decreases unit, 2
  {
    if unit.Concat? {
      r := OptimizeSimpleConcat(unit.children);
    } else if unit.Alternation? {
      r := OptimizeSimpleAlt(unit.children);
    } else {
      r := unit;
    }
  }

  method OptimizeSimpleChildren(unit: seq<Unit>) returns (children: seq<Unit>)
    requires WeightMax(unit) < UINT32_MAX
    ensures |children| == |unit| && forall i :: 0 <= i < |unit| ==> Improves(children[i], unit[i])
    ensures children == OptimizedUnits(unit)
    decreases unit, 0
  {
    children := unit;
    for i := 0 to |children|
      invariant |children| == |unit|
      invariant forall j :: 0 <= j < i ==> Improves(children[j], unit[j]) && children[j] == OptimizedUnits(unit)[j]
      invariant forall j :: i <= j < |unit| ==> children[j] == unit[j]
    {
      WeightOfChild(unit, i);
      OptimizedUnitsAt(unit, i);
      var child := OptimizeSimpleUnit(unit[i]);
      children := children[i := child];
    }
  }

  lemma OptimizedConcatParts(children: seq<Unit>, inlined: seq<Unit>)
    requires forall c :: c in children ==> Optimized(c)
    requires inlined == Inlined(children, CONCAT)
    ensures forall c :: c in inlined ==> !c.Concat? && Optimized(c)
  {
    forall c | c in inlined
      ensures !c.Concat? && Optimized(c)
    {
      InlinedMembers(children, CONCAT, c);
    }
  }

  lemma OptimizedAlternationParts(children: seq<Unit>, inlined: seq<Unit>)
    requires forall c :: c in children ==> Optimized(c)
    requires inlined == Inlined(children, ALTERNATION)
    ensures forall c :: c in inlined ==> !c.Alternation? && Optimized(c)
  {
    forall c | c in inlined
      ensures !c.Alternation? && Optimized(c)
    {
      InlinedMembers(children, ALTERNATION, c);
    }
  }

  lemma ConcatOfImproved(children: seq<Unit>, unit: seq<Unit>)
    requires |children| == |unit| && forall i :: 0 <= i < |unit| ==> Improves(children[i], unit[i])
    ensures Equivalent(Concat(Inlined(children, CONCAT)), Concat(unit))
    ensures WeightSum(Inlined(children, CONCAT)) <= WeightSum(unit)
    ensures |unit| == 1 ==> Improves(children[0], Concat(unit))
    ensures forall c :: c in Inlined(children, CONCAT) ==> !c.Concat? && Optimized(c)
    ensures AllRegexFree(unit) ==> AllRegexFree(Inlined(children, CONCAT))
  {
    if AllRegexFree(unit) {
      ReplaceChildren(children, unit, t => iset{});
      InlinedRegexFree(children, CONCAT);
    }
    forall R: RegexMeaning
      ensures Lang(Concat(Inlined(children, CONCAT)), R) == Lang(Concat(unit), R)
      ensures |unit| == 1 ==> Lang(children[0], R) == Lang(Concat(unit), R)
    {
      ReplaceChildren(children, unit, R);
      InlinedConcat(children, R);
      if |unit| == 1 {
        assert unit == [unit[0]];
        LangAllOne(unit[0], R);
      }
    }
    var R0: RegexMeaning := t => iset{};
    ReplaceChildren(children, unit, R0);
    InlinedConcatWeight(children);
    OptimizedConcatParts(children, Inlined(children, CONCAT));
  }

  lemma AlternationOfImproved(children: seq<Unit>, unit: seq<Unit>)
    requires |children| == |unit| && forall i :: 0 <= i < |unit| ==> Improves(children[i], unit[i])
    ensures |unit| == 1 ==> Improves(children[0], Alternation(unit))
    ensures Improves(Alternation(Inlined(children, ALTERNATION)), Alternation(unit))
  {
    if AllRegexFree(unit) {
      ReplaceChildren(children, unit, t => iset{});
      InlinedRegexFree(children, ALTERNATION);
    }
    forall R: RegexMeaning
      ensures Lang(Alternation(Inlined(children, ALTERNATION)), R) == Lang(Alternation(unit), R)
      ensures |unit| == 1 ==> Lang(children[0], R) == Lang(Alternation(unit), R)
    {
      ReplaceChildren(children, unit, R);
      InlinedAlternation(children, R);
      if |unit| == 1 {
        assert unit == [unit[0]];
        LangAnyOne(unit[0], R);
      }
    }
    var R0: RegexMeaning := t => iset{};
    ReplaceChildren(children, unit, R0);
    InlinedAlternation(children, R0);
    OptimizedAlternationParts(children, Inlined(children, ALTERNATION));
  }

  /** The alternation of nothing is the absorbing element of concatenation. */
  lemma DeadPart(cs: seq<Unit>, i: nat)
    requires i < |cs| && IsDead(cs[i])
    ensures Equivalent(Alternation([]), Concat(cs))
  {
    forall R: RegexMeaning
      ensures Lang(Alternation([]), R) == Lang(Concat(cs), R)
    {
      LangAllNothing(cs, i, R);
    }
  }

  lemma ConcatWithoutStar(children: seq<Unit>, before: Unit)
    requires !ContainsChild(children, STAR)
    requires Equivalent(Concat(children), before) && WeightSum(children) <= Weight(before)
    requires forall c :: c in children ==> !c.Concat? && !IsDead(c) && Optimized(c)
    requires RegexFree(before) ==> AllRegexFree(children)
    ensures Improves(Concat(children), before)
  {
    assert forall c :: c in children ==> c.Tag() != STAR;
  }

  lemma ConcatWithStar(children: seq<Unit>, before: Unit)
    requires WeightSum(children) < UINT32_MAX
    requires Equivalent(Concat(children), before) && WeightSum(children) <= Weight(before)
    requires forall c :: c in children ==> !c.Concat? && !IsDead(c) && Optimized(c)
    requires RegexFree(before) ==> AllRegexFree(children)
    ensures Improves(Concat(Absorb(children)), before)
  {
    AbsorbCorrect(children);
    SubsequenceMembers(Absorb(children), children);
  }

  method OptimizeSimpleConcat(unit: seq<Unit>) returns (r: Unit)
    requires WeightSum(unit) < UINT32_MAX
    ensures Improves(r, Concat(unit)) && r == OptimizedUnit(Concat(unit))
    decreases unit, 1
  {
    WeightMaxSum(unit);
    var children := OptimizeSimpleChildren(unit);
    ConcatOfImproved(children, unit);
    if children == [] {
      return Concat([]);
    }
    if |children| == 1 {
      return children[0];
    }

    children := InlineNested(children, CONCAT);
    for i := 0 to |children|
      invariant forall c :: c in children[..i] ==> !IsDead(c)
    {
      if IsDead(children[i]) {
        DeadPart(children, i);
        return Alternation([]);
      }
      assert children[..i + 1] == children[..i] + [children[i]];
    }
    assert children[..|children|] == children;
    assert !ContainsDead(children) by {
      assert forall i :: 0 <= i < |children| ==> children[i] in children;
    }

    if ContainsChild(children, STAR) {
      ConcatWithStar(children, Concat(unit));
      children := ConcatStarOptimization(children);
    } else {
      ConcatWithoutStar(children, Concat(unit));
    }
    return Concat(children);
  }

  method OptimizeSimpleAlt(unit: seq<Unit>) returns (r: Unit)
    requires WeightMax(unit) < UINT32_MAX
    ensures Improves(r, Alternation(unit)) && r == OptimizedUnit(Alternation(unit))
    decreases unit, 1
  {
    var children := OptimizeSimpleChildren(unit);
    AlternationOfImproved(children, unit);
    if children == [] {
      return Alternation([]);
    }
    if |children| == 1 {
      return children[0];
    }
    children := InlineNested(children, ALTERNATION);
    return Alternation(children);
  }

  /** `optimize`: improves every child of the root and leaves the root itself. */
  method Optimize(root: Unit) returns (r: Unit)
    requires Weight(root) < UINT32_MAX
    ensures Equivalent(r, root) && Weight(r) <= Weight(root) && r.Tag() == root.Tag()
    ensures RegexFree(root) ==> RegexFree(r)
    ensures r == OptimizedTree(root)
    ensures (r.Concat? || r.Alternation?) ==> forall c :: c in r.children ==> Optimized(c)
  {
    if root.Concat? {
      WeightMaxSum(root.children);
      var children := OptimizeSimpleChildren(root.children);
      forall R: RegexMeaning
        ensures Lang(Concat(children), R) == Lang(root, R)
      {
        ReplaceChildren(children, root.children, R);
      }
      ReplaceChildren(children, root.children, t => iset{});
      return Concat(children);
    } else if root.Alternation? {
      var children := OptimizeSimpleChildren(root.children);
      forall R: RegexMeaning
        ensures Lang(Alternation(children), R) == Lang(root, R)
      {
        ReplaceChildren(children, root.children, R);
      }
      ReplaceChildren(children, root.children, t => iset{});
      return Alternation(children);
    } else {
      return root;
    }
  }
}
