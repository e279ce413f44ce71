/** What the star passes of SimpleQueryOptimizer (src/netspeak/QueryNormalizer.cpp) do to every run of units. */
module StarRuns {
  import opened Sequences
  import opened SimpleQueries
  import opened QueryOptimizer

  ghost predicate NoneBlocks(run: seq<Unit>)
  {
    forall u :: u in run ==> !Blocks(u)
  }

  /** The length of the longest prefix in which nothing blocks. */
  function FirstRun(cs: seq<Unit>): (n: nat)
    ensures n <= |cs| && NoneBlocks(cs[..n]) && (n < |cs| ==> Blocks(cs[n]))
  {
    if cs == [] || Blocks(cs[0]) then 0
    else
      var n := FirstRun(cs[1..]);
      assert cs[..n + 1] == [cs[0]] + cs[1..][..n];
      n + 1
  }

  function QMarksOf(us: seq<Unit>): seq<Unit>
  {
    if us == [] then [] else (if us[0].QMark? then [us[0]] else []) + QMarksOf(us[1..])
  }

  function FirstStar(run: seq<Unit>): (k: nat)
    requires Star in run
    ensures k < |run| && run[k] == Star && Star !in run[..k]
  {
    if run[0].Star? then 0
    else
      var k := FirstStar(run[1..]);
      assert run[..k + 1] == [run[0]] + run[1..][..k];
      k + 1
  }

  /** A run in which nothing blocks: with a star, its first star and its question marks are left. */
  function OneStar(run: seq<Unit>): seq<Unit>
  {
    if Star !in run then run
    else
      var k := FirstStar(run);
      QMarksOf(run[..k]) + ([Star] + QMarksOf(run[k + 1..]))
  }

  /** Every maximal run is reduced by itself, and the units that block stay between them. */
  function ByRuns(cs: seq<Unit>): seq<Unit>
    decreases |cs|
  {
    var n := FirstRun(cs);
    if n == |cs| then OneStar(cs) else OneStar(cs[..n]) + ([cs[n]] + ByRuns(cs[n + 1..]))
  }

  lemma {:induction false} QMarksOfAppend(a: seq<Unit>, b: seq<Unit>)
    ensures QMarksOf(a + b) == QMarksOf(a) + QMarksOf(b)
  {
    if a == [] {
      EmptyLeft(b);
      EmptyLeft(QMarksOf(b));
    } else {
      QMarksOfAppend(a[1..], b);
      TailOfAppend(a, b);
      AppendAssoc(if a[0].QMark? then [a[0]] else [], QMarksOf(a[1..]), QMarksOf(b));
    }
  }

  lemma {:induction false} QMarksOfCount(us: seq<Unit>)
    ensures forall u :: u in QMarksOf(us) ==> u == QMark
    ensures |QMarksOf(us)| == multiset(us)[QMark]
  {
    if us != [] {
      QMarksOfCount(us[1..]);
      HeadAndTail(us);
    }
  }

  /** What is left of a run with a star: exactly one star, as many question marks as there were, and nothing else. */
  lemma OneStarCounts(run: seq<Unit>)
    requires Star in run
    ensures multiset(OneStar(run))[Star] == 1
    ensures |OneStar(run)| == 1 + multiset(run)[QMark]
    ensures multiset(OneStar(run))[QMark] == multiset(run)[QMark]
  {
    var k := FirstStar(run);
    SplitAt(run, k);
    CountsAround(run[..k], run[k + 1..], QMarksOf(run[..k]), QMarksOf(run[k + 1..]));
  }

  lemma SplitAt<T>(s: seq<T>, k: nat)
    requires k < |s|
    ensures s == s[..k] + ([s[k]] + s[k + 1..])
  {
  }

  lemma CountsAround(a: seq<Unit>, b: seq<Unit>, qa: seq<Unit>, qb: seq<Unit>)
    requires qa == QMarksOf(a) && qb == QMarksOf(b)
    ensures multiset(qa + ([Star] + qb))[Star] == 1
    ensures |qa + ([Star] + qb)| == 1 + multiset(a + ([Star] + b))[QMark]
    ensures multiset(qa + ([Star] + qb))[QMark] == multiset(a + ([Star] + b))[QMark]
  {
    QMarksOfCounts(a);
    QMarksOfCounts(b);
    AroundCount(qa, Star, qb, Star);
    AroundCount(qa, Star, qb, QMark);
    AroundCount(a, Star, b, QMark);
  }

  lemma {:induction false} AllTheSame<T>(s: seq<T>, x: T, y: T)
    requires x != y && forall z :: z in s ==> z == x
    ensures multiset(s)[x] == |s| && multiset(s)[y] == 0
  {
    if s != [] {
      var t := s[1..];
      HeadAndTail(s);
      assert forall z :: z in s <==> z == s[0] || z in t;
      assert s[0] in s;
      AllTheSame(t, x, y);
      ConsMultiset(s[0], t, s);
    }
  }

  lemma ConsMultiset<T>(x: T, t: seq<T>, s: seq<T>)
    requires s == [x] + t
    ensures multiset(s) == multiset{x} + multiset(t)
  {
  }

  lemma AroundCount<T>(a: seq<T>, x: T, b: seq<T>, y: T)
    ensures multiset(a + ([x] + b))[y] == multiset(a)[y] + (if x == y then 1 else 0) + multiset(b)[y]
  {
    assert multiset(a + ([x] + b)) == multiset(a) + multiset{x} + multiset(b);
  }

  lemma QMarksOfCounts(us: seq<Unit>)
    ensures |QMarksOf(us)| == multiset(us)[QMark] == multiset(QMarksOf(us))[QMark]
    ensures multiset(QMarksOf(us))[Star] == 0
  {
    QMarksOfCount(us);
    AllTheSame(QMarksOf(us), QMark, Star);
  }

  lemma {:induction false} ForwardAround(a: seq<Unit>, x: Unit, b: seq<Unit>)
    requires Blocks(x)
    ensures Forward(a + [x] + b) == Forward(a) + [x] + Forward(b)
    ensures StarBehind(a + [x] + b) == StarBehind(b)
  {
    if b == [] {
      EmptyRight(a + [x]);
      EmptyRight(Forward(a) + [x]);
      ForwardSnoc(a, x, a + [x]);
    } else {
      var front, last := b[..|b| - 1], b[|b| - 1];
      ForwardAround(a, x, front);
      InitAndLast(b);
      AppendAssoc(a + [x], front, [last]);
      ForwardSnoc(a + [x] + front, last, a + [x] + b);
      ForwardSnoc(front, last, b);
      AppendAssoc(Forward(a) + [x], Forward(front), [last]);
    }
  }

  lemma {:induction false} BackwardAround(a: seq<Unit>, x: Unit, b: seq<Unit>)
    requires Blocks(x)
    ensures Backward(a + ([x] + b)) == Backward(a) + ([x] + Backward(b))
    ensures StarAhead(a + ([x] + b)) == StarAhead(a)
  {
    if a == [] {
      EmptyLeft([x] + b);
      EmptyLeft([x] + Backward(b));
      BackwardCons(x, b, [x] + b);
    } else {
      var rest := a[1..] + ([x] + b);
      BackwardAround(a[1..], x, b);
      HeadAndTail(a);
      AppendAssoc([a[0]], a[1..], [x] + b);
      BackwardCons(a[0], rest, a + ([x] + b));
      BackwardCons(a[0], a[1..], a);
      AppendAssoc([a[0]], Backward(a[1..]), [x] + Backward(b));
    }
  }

  lemma {:induction false} ForwardWithoutStar(run: seq<Unit>)
    requires Star !in run
    ensures !StarBehind(run) && Forward(run) == run
  {
    if run != [] {
      ForwardWithoutStar(run[..|run| - 1]);
      InitAndLast(run);
      assert run[|run| - 1] in run;
    }
  }

  lemma {:induction false} BackwardWithoutStar(run: seq<Unit>)
    requires Star !in run
    ensures !StarAhead(run) && Backward(run) == run
  {
    if run != [] {
      BackwardWithoutStar(run[1..]);
      HeadAndTail(run);
      assert run[0] in run;
    }
  }

  /** Behind a star only question marks are left of a run. */
  lemma {:induction false} ForwardBehindStar(front: seq<Unit>, back: seq<Unit>)
    requires Star !in front && NoneBlocks(back)
    ensures Forward(front + [Star] + back) == front + [Star] + QMarksOf(back)
    ensures StarBehind(front + [Star] + back)
  {
    if back == [] {
      EmptyRight(front + [Star]);
      ForwardWithoutStar(front);
      ForwardSnoc(front, Star, front + [Star]);
    } else {
      var init, last := back[..|back| - 1], back[|back| - 1];
      assert last in back;
      ForwardBehindStar(front, init);
      InitAndLast(back);
      AppendAssoc(front + [Star], init, [last]);
      ForwardSnoc(front + [Star] + init, last, front + [Star] + back);
      QMarksSnoc(init, last);
      AppendAssoc(front + [Star], QMarksOf(init), [last]);
    }
  }

  lemma QMarksSnoc(us: seq<Unit>, u: Unit)
    ensures QMarksOf(us + [u]) == if u.QMark? then QMarksOf(us) + [u] else QMarksOf(us)
  {
    QMarksOfAppend(us, [u]);
    assert [u][1..] == [];
    EmptyRight(QMarksOf(us));
  }

  /** In front of a star as well. */
  lemma {:induction false} BackwardBeforeStar(front: seq<Unit>, qmarks: seq<Unit>)
    requires NoneBlocks(front) && forall u :: u in qmarks ==> u == QMark
    ensures Backward(front + ([Star] + qmarks)) == QMarksOf(front) + ([Star] + qmarks)
    ensures StarAhead(front + ([Star] + qmarks))
  {
    if front == [] {
      EmptyLeft([Star] + qmarks);
      BackwardWithoutStar(qmarks);
      BackwardCons(Star, qmarks, [Star] + qmarks);
    } else {
      var rest := front[1..] + ([Star] + qmarks);
      assert front[0] in front;
      BackwardBeforeStar(front[1..], qmarks);
      HeadAndTail(front);
      AppendAssoc([front[0]], front[1..], [Star] + qmarks);
      BackwardCons(front[0], rest, front + ([Star] + qmarks));
      AppendAssoc(if front[0].QMark? then [front[0]] else [], QMarksOf(front[1..]), [Star] + qmarks);
    }
  }

  lemma RunAbsorbed(run: seq<Unit>)
    requires NoneBlocks(run)
    ensures Absorb(run) == OneStar(run)
  {
    if Star !in run {
      ForwardWithoutStar(run);
      BackwardWithoutStar(run);
    } else {
      var k := FirstStar(run);
      var front, back := run[..k], run[k + 1..];
      assert run == front + [Star] + back;
      ForwardBehindStar(front, back);
      QMarksOfCount(back);
      AppendAssoc(front, [Star], QMarksOf(back));
      BackwardBeforeStar(front, QMarksOf(back));
    }
  }

  /** The two passes reduce every maximal run by itself: a run with a star keeps exactly its first star and its question
      marks, a run without one stays as it is, and so does every unit that blocks. */
  lemma {:induction false} AbsorbIsByRuns(cs: seq<Unit>)
    ensures Absorb(cs) == ByRuns(cs)
    decreases |cs|
  {
    var n := FirstRun(cs);
    if n == |cs| {
      assert cs[..n] == cs;
      RunAbsorbed(cs);
    } else {
      var a, x, b := cs[..n], cs[n], cs[n + 1..];
      assert cs == a + [x] + b;
      ForwardAround(a, x, b);
      AppendAssoc(Forward(a), [x], Forward(b));
      BackwardAround(Forward(a), x, Forward(b));
      RunAbsorbed(a);
      AbsorbIsByRuns(b);
    }
  }
}
