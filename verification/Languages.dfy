/**
 * Formal languages over an alphabet T.
 * Phrase queries denote languages over words; regexes denote languages over characters.
 * The wrapper keeps equational proofs about languages apart from proofs about their members.
 */
module Languages {

  datatype Language<!T(==)> = Language(members: iset<seq<T>>)

  ghost predicate Has<T>(A: Language<T>, s: seq<T>)
  {
    s in A.members
  }

  ghost predicate Subset<T(!new)>(A: Language<T>, B: Language<T>)
  {
    forall s :: Has(A, s) ==> Has(B, s)
  }

  /** s splits at k into a member of A followed by a member of B. */
  ghost predicate Splits<T>(s: seq<T>, k: int, A: Language<T>, B: Language<T>)
  {
    0 <= k <= |s| && Has(A, s[..k]) && Has(B, s[k..])
  }

  ghost predicate InCat<T>(s: seq<T>, A: Language<T>, B: Language<T>)
  {
    exists k :: Splits(s, k, A, B)
  }

  /** Concatenation of two languages. */
  ghost function Cat<T(!new)>(A: Language<T>, B: Language<T>): Language<T>
  {
    Language(iset s: seq<T> | InCat(s, A, B))
  }

  ghost function Union<T(!new)>(A: Language<T>, B: Language<T>): Language<T>
  {
    Language(A.members + B.members)
  }

  ghost function Nothing<T(!new)>(): Language<T>
  {
    Language(iset{})
  }

  /** The language of the single sequence t. */
  ghost function Just<T(!new)>(t: seq<T>): Language<T>
  {
    Language(iset{t})
  }

  ghost function Epsilon<T(!new)>(): Language<T>
  {
    Just([])
  }

  ghost function All<T(!new)>(): Language<T>
  {
    Language(iset s: seq<T> | 0 <= |s|)
  }

  /** All sequences of length one. */
  ghost function Singles<T(!new)>(): Language<T>
  {
    Language(iset s: seq<T> | |s| == 1)
  }

  /** The members of A that are no longer than n. */
  ghost function Upto<T(!new)>(A: Language<T>, n: int): Language<T>
  {
    Language(iset s: seq<T> | s in A.members && |s| <= n)
  }

  lemma Extensional<T(!new)>(A: Language<T>, B: Language<T>)
    requires forall s :: Has(A, s) <==> Has(B, s)
    ensures A == B
  {
    forall s: seq<T>
      ensures s in A.members <==> s in B.members
    {
      assert Has(A, s) <==> Has(B, s);
    }
  }

  lemma SameHas<T(!new)>(A: Language<T>, B: Language<T>, s: seq<T>)
    requires A == B && Has(A, s)
    ensures Has(B, s)
  {
  }

  lemma SplitIntro<T(!new)>(s: seq<T>, k: nat, A: Language<T>, B: Language<T>)
    requires k <= |s| && Has(A, s[..k]) && Has(B, s[k..])
    ensures Has(Cat(A, B), s)
  {
    assert Splits(s, k, A, B);
  }

  lemma CatIntro<T(!new)>(a: seq<T>, b: seq<T>, A: Language<T>, B: Language<T>)
    requires Has(A, a) && Has(B, b)
    ensures Has(Cat(A, B), a + b)
  {
    var s := a + b;
    assert s[..|a|] == a && s[|a|..] == b;
    assert Splits(s, |a|, A, B);
  }

  lemma CatElim<T(!new)>(s: seq<T>, A: Language<T>, B: Language<T>) returns (a: seq<T>, b: seq<T>)
    requires Has(Cat(A, B), s)
    ensures Has(A, a) && Has(B, b) && s == a + b
  {
    var k :| Splits(s, k, A, B);
    a, b := s[..k], s[k..];
  }

  lemma CatMonotone<T(!new)>(A: Language<T>, B: Language<T>, C: Language<T>, D: Language<T>)
    requires Subset(A, C) && Subset(B, D)
    ensures Subset(Cat(A, B), Cat(C, D))
  {
    forall s | Has(Cat(A, B), s)
      ensures Has(Cat(C, D), s)
    {
      var a, b := CatElim(s, A, B);
      CatIntro(a, b, C, D);
    }
  }

  lemma CatAssoc<T(!new)>(A: Language<T>, B: Language<T>, C: Language<T>)
    ensures Cat(Cat(A, B), C) == Cat(A, Cat(B, C))
  {
    forall s | Has(Cat(Cat(A, B), C), s)
      ensures Has(Cat(A, Cat(B, C)), s)
    {
      var ab, c := CatElim(s, Cat(A, B), C);
      var a, b := CatElim(ab, A, B);
      CatIntro(b, c, B, C);
      CatIntro(a, b + c, A, Cat(B, C));
      assert s == a + (b + c);
    }
    forall s | Has(Cat(A, Cat(B, C)), s)
      ensures Has(Cat(Cat(A, B), C), s)
    {
      var a, bc := CatElim(s, A, Cat(B, C));
      var b, c := CatElim(bc, B, C);
      CatIntro(a, b, A, B);
      CatIntro(a + b, c, Cat(A, B), C);
      assert s == (a + b) + c;
    }
    Extensional(Cat(Cat(A, B), C), Cat(A, Cat(B, C)));
  }

  lemma CatEpsilon<T(!new)>(A: Language<T>)
    ensures Cat(A, Epsilon()) == A
  {
    forall s: seq<T>
      ensures Has(Cat(A, Epsilon()), s) <==> Has(A, s)
    {
      if Has(A, s) {
        CatIntro(s, [], A, Epsilon());
        assert s + [] == s;
      }
      if Has(Cat(A, Epsilon()), s) {
        var a, b := CatElim(s, A, Epsilon());
        assert a + [] == a;
      }
    }
    Extensional(Cat(A, Epsilon()), A);
  }

  lemma EpsilonCat<T(!new)>(A: Language<T>)
    ensures Cat(Epsilon(), A) == A
  {
    forall s: seq<T>
      ensures Has(Cat(Epsilon(), A), s) <==> Has(A, s)
    {
      if Has(A, s) {
        CatIntro([], s, Epsilon(), A);
        assert [] + s == s;
      }
      if Has(Cat(Epsilon(), A), s) {
        var a, b := CatElim(s, Epsilon(), A);
        assert [] + b == b;
      }
    }
    Extensional(Cat(Epsilon(), A), A);
  }

  lemma CatJust<T(!new)>(a: seq<T>, b: seq<T>)
    ensures Cat(Just(a), Just(b)) == Just(a + b)
  {
    forall s: seq<T>
      ensures Has(Cat(Just(a), Just(b)), s) <==> s == a + b
    {
      CatIntro(a, b, Just(a), Just(b));
      if Has(Cat(Just(a), Just(b)), s) {
        var x, y := CatElim(s, Just(a), Just(b));
      }
    }
    Extensional(Cat(Just(a), Just(b)), Just(a + b));
  }

  lemma CatNothing<T(!new)>(A: Language<T>)
    ensures Cat(A, Nothing()) == Nothing() && Cat(Nothing(), A) == Nothing()
  {
    Extensional(Cat(A, Nothing()), Nothing());
    Extensional(Cat(Nothing(), A), Nothing());
  }

  lemma UnionHas<T(!new)>(A: Language<T>, B: Language<T>)
    ensures forall s :: Has(Union(A, B), s) <==> Has(A, s) || Has(B, s)
  {
  }

  lemma UnionNothing<T(!new)>(A: Language<T>)
    ensures Union(A, Nothing()) == A && Union(Nothing(), A) == A
  {
  }

  lemma UnionAssoc<T(!new)>(A: Language<T>, B: Language<T>, C: Language<T>)
    ensures Union(Union(A, B), C) == Union(A, Union(B, C))
  {
  }

  lemma CatUnionLeft<T(!new)>(A: Language<T>, B: Language<T>, C: Language<T>)
    ensures Cat(Union(A, B), C) == Union(Cat(A, C), Cat(B, C))
  {
    CatMonotone(A, C, Union(A, B), C);
    CatMonotone(B, C, Union(A, B), C);
    forall s | Has(Cat(Union(A, B), C), s)
      ensures Has(Union(Cat(A, C), Cat(B, C)), s)
    {
      var a, c := CatElim(s, Union(A, B), C);
      if Has(A, a) { CatIntro(a, c, A, C); } else { CatIntro(a, c, B, C); }
    }
    Extensional(Cat(Union(A, B), C), Union(Cat(A, C), Cat(B, C)));
  }

  lemma CatUnionRight<T(!new)>(A: Language<T>, B: Language<T>, C: Language<T>)
    ensures Cat(A, Union(B, C)) == Union(Cat(A, B), Cat(A, C))
  {
    CatMonotone(A, B, A, Union(B, C));
    CatMonotone(A, C, A, Union(B, C));
    forall s | Has(Cat(A, Union(B, C)), s)
      ensures Has(Union(Cat(A, B), Cat(A, C)), s)
    {
      var a, c := CatElim(s, A, Union(B, C));
      if Has(B, c) { CatIntro(a, c, A, B); } else { CatIntro(a, c, A, C); }
    }
    Extensional(Cat(A, Union(B, C)), Union(Cat(A, B), Cat(A, C)));
  }

  /** The language of everything absorbs a language that holds the empty sequence, from either side. */
  lemma AllAbsorbs<T(!new)>(A: Language<T>)
    requires Has(A, [])
    ensures Cat(All(), A) == All() && Cat(A, All()) == All()
  {
    forall s: seq<T>
      ensures Has(Cat(All(), A), s) && Has(Cat(A, All()), s)
    {
      CatIntro(s, [], All(), A);
      CatIntro([], s, A, All());
      assert s + [] == s && [] + s == s;
    }
    Extensional(Cat(All(), A), All());
    Extensional(Cat(A, All()), All());
  }

  /** `* ?` and `? *` denote the same language. */
  lemma AllCommutesWithSingles<T(!new)>()
    ensures Cat(All<T>(), Singles()) == Cat(Singles<T>(), All())
  {
    forall s: seq<T>
      ensures Has(Cat(All(), Singles()), s) <==> |s| > 0
      ensures Has(Cat(Singles(), All()), s) <==> |s| > 0
    {
      if |s| > 0 {
        CatIntro(s[..|s| - 1], s[|s| - 1..], All(), Singles());
        CatIntro(s[..1], s[1..], Singles(), All());
        assert s[..|s| - 1] + s[|s| - 1..] == s && s[..1] + s[1..] == s;
      }
    }
    Extensional(Cat(All<T>(), Singles()), Cat(Singles<T>(), All()));
  }

  /** A length limit on a concatenation may be applied to both parts first. */
  lemma UptoCat<T(!new)>(A: Language<T>, B: Language<T>, n: int)
    ensures Upto(Cat(A, B), n) == Upto(Cat(Upto(A, n), Upto(B, n)), n)
  {
    var C, D := Upto(A, n), Upto(B, n);
    forall s | |s| <= n
      ensures Has(Cat(A, B), s) <==> Has(Cat(C, D), s)
    {
      if Has(Cat(A, B), s) {
        var a, b := CatElim(s, A, B);
        CatIntro(a, b, C, D);
      }
      if Has(Cat(C, D), s) {
        var a, b := CatElim(s, C, D);
        CatIntro(a, b, A, B);
      }
    }
    Extensional(Upto(Cat(A, B), n), Upto(Cat(C, D), n));
  }

  /** Languages that agree up to n have concatenations that agree up to n. */
  lemma UptoCatCongruence<T(!new)>(A: Language<T>, B: Language<T>, C: Language<T>, D: Language<T>, n: int)
    requires Upto(A, n) == Upto(C, n) && Upto(B, n) == Upto(D, n)
    ensures Upto(Cat(A, B), n) == Upto(Cat(C, D), n)
  {
    UptoCat(A, B, n);
    UptoCat(C, D, n);
  }

  lemma UptoUnion<T(!new)>(A: Language<T>, B: Language<T>, n: int)
    ensures Upto(Union(A, B), n) == Union(Upto(A, n), Upto(B, n))
  {
    Extensional(Upto(Union(A, B), n), Union(Upto(A, n), Upto(B, n)));
  }
}
