/**
 * How a phrase is accepted. A trace records, for each word of a phrase, whether a word, a question mark or a regex
 * fixed its place, or whether it fills a star. Forgetting that record leaves the phrase.
 */
module Traces {
  import opened Languages
  import opened Sequences
  import opened SimpleQueries

  datatype Step = Step(word: string, fixed: bool)

  type Trace = seq<Step>

  function Words(s: Trace): (p: Phrase)
    ensures |p| == |s|
  {
    if s == [] then [] else [s[0].word] + Words(s[1..])
  }

  /** The number of words whose place is fixed. */
  function FixedCount(s: Trace): (n: nat)
    ensures n <= |s|
  {
    if s == [] then 0 else (if s[0].fixed then 1 else 0) + FixedCount(s[1..])
  }

  ghost predicate IsFixed(s: Trace)
  {
    |s| == 1 && s[0].fixed
  }

  ghost predicate IsFilling(s: Trace)
  {
    forall i :: 0 <= i < |s| ==> !s[i].fixed
  }

  ghost function FixedSteps(words: iset<string>): Language<Step>
  {
    Language(iset s: Trace | IsFixed(s) && s[0].word in words)
  }

  ghost function AnyFixedStep(): Language<Step>
  {
    Language(iset s: Trace | IsFixed(s))
  }

  ghost function Fillings(): Language<Step>
  {
    Language(iset s: Trace | IsFilling(s))
  }

  ghost function UnitTraces(u: Unit, R: RegexMeaning): Language<Step>
    decreases u, 1
  {
    match u
    case Word(t) => Just([Step(t, true)])
    case QMark => AnyFixedStep()
    case Star => Fillings()
    case Regex(t) => FixedSteps(R(t))
    case Concat(cs) => TracesAll(cs, R)
    case Alternation(cs) => TracesAny(cs, R)
  }

  ghost function TracesAll(cs: seq<Unit>, R: RegexMeaning): Language<Step>
    decreases cs, 0
  {
    if cs == [] then Epsilon() else Cat(UnitTraces(cs[0], R), TracesAll(cs[1..], R))
  }

  ghost function TracesAny(cs: seq<Unit>, R: RegexMeaning): Language<Step>
    decreases cs, 0
  {
    if cs == [] then Nothing() else Union(UnitTraces(cs[0], R), TracesAny(cs[1..], R))
  }

  lemma WordsCons(s: Trace)
    requires s != []
    ensures Words(s) == [s[0].word] + Words(s[1..])
    ensures FixedCount(s) == (if s[0].fixed then 1 else 0) + FixedCount(s[1..])
  {
  }

  lemma {:induction false} WordsAppend(a: Trace, b: Trace)
    ensures Words(a + b) == Words(a) + Words(b)
    ensures FixedCount(a + b) == FixedCount(a) + FixedCount(b)
  {
    if a == [] {
      EmptyLeft(b);
    } else {
      WordsAppend(a[1..], b);
      TailOfAppend(a, b);
      WordsCons(a + b);
      WordsCons(a);
      AppendAssoc([a[0].word], Words(a[1..]), Words(b));
    }
  }

  lemma {:induction false} WordsAt(s: Trace)
    ensures forall i :: 0 <= i < |s| ==> Words(s)[i] == s[i].word
  {
    if s != [] {
      WordsAt(s[1..]);
    }
  }

  lemma {:induction false} FillingCount(s: Trace)
    requires IsFilling(s)
    ensures FixedCount(s) == 0
  {
    if s != [] {
      FillingCount(s[1..]);
    }
  }

  /** p is accepted by a trace of A. */
  ghost predicate Traced(A: Language<Step>, p: Phrase)
  {
    exists s :: Has(A, s) && Words(s) == p
  }

  /** The phrases of the traces of A. */
  ghost function Erased(A: Language<Step>): Language<Word>
  {
    Language(iset p: Phrase | Traced(A, p))
  }

  lemma ErasedCat(A: Language<Step>, B: Language<Step>)
    ensures Erased(Cat(A, B)) == Cat(Erased(A), Erased(B))
  {
    forall p: Phrase
      ensures Has(Erased(Cat(A, B)), p) <==> Has(Cat(Erased(A), Erased(B)), p)
    {
      if Has(Erased(Cat(A, B)), p) {
        var s :| Has(Cat(A, B), s) && Words(s) == p;
        var a, b := CatElim(s, A, B);
        WordsAppend(a, b);
        CatIntro(Words(a), Words(b), Erased(A), Erased(B));
      }
      if Has(Cat(Erased(A), Erased(B)), p) {
        var x, y := CatElim(p, Erased(A), Erased(B));
        var a :| Has(A, a) && Words(a) == x;
        var b :| Has(B, b) && Words(b) == y;
        WordsAppend(a, b);
        CatIntro(a, b, A, B);
      }
    }
    Extensional(Erased(Cat(A, B)), Cat(Erased(A), Erased(B)));
  }

  lemma ErasedUnion(A: Language<Step>, B: Language<Step>)
    ensures Erased(Union(A, B)) == Union(Erased(A), Erased(B))
  {
    UnionHas(A, B);
    UnionHas(Erased(A), Erased(B));
    Extensional(Erased(Union(A, B)), Union(Erased(A), Erased(B)));
  }

  lemma ErasedLeaf(u: Unit, R: RegexMeaning)
    requires !u.Concat? && !u.Alternation?
    ensures Erased(UnitTraces(u, R)) == Lang(u, R)
  {
    forall p: Phrase
      ensures Has(Erased(UnitTraces(u, R)), p) <==> Has(Lang(u, R), p)
    {
      if Has(Lang(u, R), p) {
        var s := seq(|p|, i requires 0 <= i < |p| => Step(p[i], !u.Star?));
        WordsAt(s);
        assert Words(s) == p;
        if u.Star? {
          assert IsFilling(s);
        } else {
          assert IsFixed(s);
          if u.Word? {
            assert s == [Step(u.text, true)];
          }
        }
        assert Has(UnitTraces(u, R), s);
      }
      if Has(Erased(UnitTraces(u, R)), p) {
        var s :| Has(UnitTraces(u, R), s) && Words(s) == p;
        WordsAt(s);
        if u.Word? {
          assert p == [u.text];
        }
      }
    }
    Extensional(Erased(UnitTraces(u, R)), Lang(u, R));
  }

  /** Traces explain exactly the accepted phrases. */
  lemma {:induction false} ErasedTraces(u: Unit, R: RegexMeaning)
    ensures Erased(UnitTraces(u, R)) == Lang(u, R)
    decreases u, 1
  {
    match u
    case Concat(cs) => ErasedTracesAll(cs, R);
    case Alternation(cs) => ErasedTracesAny(cs, R);
    case _ => ErasedLeaf(u, R);
  }

  lemma {:induction false} ErasedTracesAll(cs: seq<Unit>, R: RegexMeaning)
    ensures Erased(TracesAll(cs, R)) == LangAll(cs, R)
    decreases cs, 0
  {
    if cs == [] {
      assert Has(TracesAll(cs, R), []);
      Extensional(Erased(TracesAll(cs, R)), LangAll(cs, R));
    } else {
      ErasedTraces(cs[0], R);
      ErasedTracesAll(cs[1..], R);
      ErasedCat(UnitTraces(cs[0], R), TracesAll(cs[1..], R));
    }
  }

  lemma {:induction false} ErasedTracesAny(cs: seq<Unit>, R: RegexMeaning)
    ensures Erased(TracesAny(cs, R)) == LangAny(cs, R)
    decreases cs, 0
  {
    if cs == [] {
      Extensional(Erased(TracesAny(cs, R)), LangAny(cs, R));
    } else {
      ErasedTraces(cs[0], R);
      ErasedTracesAny(cs[1..], R);
      ErasedUnion(UnitTraces(cs[0], R), TracesAny(cs[1..], R));
    }
  }
}
